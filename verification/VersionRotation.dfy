/** What the version rotation of `Client.Update` keeps over whole runs: one version per policy,
    numbers that only grow, and the document that a later read returns. */
module VersionRotation {
  import opened Common
  import opened UrlEscape
  import opened VersionNames
  import opened PolicyStore
  import opened PolicyClient

  /** One version, flagged default, named by the policy, with a printed positive number. */
  predicate Single(mp: ManagedPolicy) {
    var d := mp.policy.defaultVersionId;
    && mp.versions.Keys == {d} && mp.versions[d].isDefault && mp.versions[d].versionId == d
    && VersionNumber(d) >= 1 && d == VersionName(VersionNumber(d))
  }

  ghost predicate AllSingle(s: Store) {
    forall n {:trigger Marked(n)} :: Marked(n) && n in s.policies ==> Single(s.policies[n])
  }

  function Number(mp: ManagedPolicy): int {
    VersionNumber(mp.policy.defaultVersionId)
  }

  /** The policy after one rotation. */
  function Rotated(mp: ManagedPolicy, doc: Bytes, clock: nat): ManagedPolicy {
    var id := VersionName(Number(mp) + 1);
    ManagedPolicy(map[id := PolicyVersion(doc, id, true, clock)], mp.policy.(defaultVersionId := id))
  }

  function DefaultDocument(mp: ManagedPolicy): Bytes
    requires mp.policy.defaultVersionId in mp.versions
  {
    mp.versions[mp.policy.defaultVersionId].document
  }

  // ----- one update -----

  lemma NextOfSingle(mp: ManagedPolicy)
    requires Single(mp)
    ensures mp.versions != map[] && |mp.versions| == 1
    ensures NextId(mp.versions) == VersionName(Number(mp) + 1)
    ensures NextId(mp.versions) != mp.policy.defaultVersionId && VersionNumber(NextId(mp.versions)) == Number(mp) + 1
  {
    var d := mp.policy.defaultVersionId;
    assert d in mp.versions;
    assert |mp.versions| == |mp.versions.Keys|;
    assert Latest(mp.versions) in mp.versions.Keys;
    VersionNameParses(Number(mp) + 1, Number(mp));
  }

  lemma AddThenDrop(mp: ManagedPolicy, doc: Bytes, clock: nat)
    requires Single(mp)
    ensures
      var d := mp.policy.defaultVersionId;
      var added := AddVersion(mp, PolicyVersion(doc, NextId(mp.versions), true, clock));
      && d in added.versions && !added.versions[d].isDefault
      && added.(versions := added.versions - {d}) == Rotated(mp, doc, clock)
  {
    NextOfSingle(mp);
    var d, id := mp.policy.defaultVersionId, NextId(mp.versions);
    var added := AddVersion(mp, PolicyVersion(doc, id, true, clock));
    assert d in mp.versions;
    assert added.versions.Keys == {d, id};
    assert added.versions - {d} == map[id := PolicyVersion(doc, id, true, clock)];
  }

  lemma RotatedIsSingle(mp: ManagedPolicy, doc: Bytes, clock: nat)
    requires Single(mp)
    ensures Single(Rotated(mp, doc, clock)) && Number(Rotated(mp, doc, clock)) == Number(mp) + 1
  {
    NextOfSingle(mp);
  }

  /** Create-new-default then delete-old is exactly one replacement of the single version. */
  lemma RotateOfSingle(s: Store, n: string, policy: IamPolicy, doc: Bytes, f: UpdateFault)
    requires IndexOk(s) && n in s.policies && Single(s.policies[n]) && f != DeleteVersionFails
    requires policy.arn == s.policies[n].policy.arn && policy.versionId == s.policies[n].policy.defaultVersionId
    ensures
      var s' := Replace(s, n, Rotated(s.policies[n], doc, s.clock), s.clock + 1);
      Rotate(s, policy, doc, f) == (s', if f == LastReadFails then Unavailable() else Read(s', policy.arn))
  {
    var mp := s.policies[n];
    IndexAt(s, n);
    NextOfSingle(mp);
    AddThenDrop(mp, doc, s.clock);
    var version := PolicyVersion(doc, NextId(mp.versions), true, s.clock);
    var s1 := CreatePolicyVersion(s, policy.arn, doc, true).0;
    assert s1 == Replace(s, n, AddVersion(mp, version), s.clock + 1);
    var s2 := DeletePolicyVersion(s1, policy.arn, policy.versionId).0;
    assert s2.policies == s.policies[n := Rotated(mp, doc, s.clock)];
  }

  /** Reading a live policy decodes its default version. */
  lemma ReadLive(s: Store, n: string)
    requires IndexOk(s) && n in s.policies && s.policies[n].policy.defaultVersionId in s.policies[n].versions
    ensures
      var mp := s.policies[n];
      var d := QueryUnescape(DefaultDocument(mp));
      Read(s, mp.policy.arn) ==
        if d.None? then Err(BadEscape)
        else Ok(IamPolicy(mp.policy.arn, n, mp.policy.description, mp.policy.defaultVersionId, d.value,
          mp.policy.createDate))
  {
    IndexAt(s, n);
  }

  lemma ReadFindsLive(s: Store, arn: string)
    requires IndexOk(s)
    ensures arn in s.arns ==> s.arns[arn] in s.policies && s.policies[s.arns[arn]].policy.arn == arn
    ensures arn !in s.arns ==> Read(s, arn) == Err(NotFound)
  {
    if arn in s.arns { ArnAt(s, arn); }
  }

  /** What one update does to a policy with a single version. */
  lemma UpdateOfSingle(s: Store, parse: Parser, n: string, doc: Bytes, f: UpdateFault)
    requires IndexOk(s) && n in s.policies && Single(s.policies[n]) && f != DeleteVersionFails
    ensures
      var mp := s.policies[n];
      var s' := Update(s, parse, mp.policy.arn, doc, f).0;
      var was := QueryUnescape(DefaultDocument(mp));
      s' == if f == FirstReadFails || f == NewVersionFails || was.None? || parse(was.value).None? || parse(doc).None?
              || parse(was.value) == parse(doc) then s
            else Replace(s, n, Rotated(mp, doc, s.clock), s.clock + 1)
  {
    var mp := s.policies[n];
    ReadLive(s, n);
    var policy := Read(s, mp.policy.arn);
    if policy.Ok? { RotateOfSingle(s, n, policy.value, doc, f); }
  }

  lemma ChangedDocumentRotates(s: Store, parse: Parser, arn: string, policy: IamPolicy, doc: Bytes)
    requires Read(s, arn) == Ok(policy)
    requires parse(policy.document).Some? && parse(doc).Some? && parse(policy.document) != parse(doc)
    ensures Update(s, parse, arn, doc, UpdateOk) == Rotate(s, policy, doc, UpdateOk)
  {
  }

  /** A faultless update to a changed document returns what the next read does, which is the very
      bytes exactly when the document holds no '%' and no '+': the new version is stored raw. */
  lemma UpdateThenRead(s: Store, parse: Parser, n: string, doc: Bytes)
    requires IndexOk(s) && n in s.policies && Single(s.policies[n])
    requires Read(s, s.policies[n].policy.arn).Ok?
    requires parse(Read(s, s.policies[n].policy.arn).value.document).Some? && parse(doc).Some?
    requires parse(Read(s, s.policies[n].policy.arn).value.document) != parse(doc)
    ensures
      var arn := s.policies[n].policy.arn;
      var (s', r) := Update(s, parse, arn, doc, UpdateOk);
      r == Read(s', arn) && (r.Ok? && r.value.document == doc <==> Plain(doc))
  {
    var policy := Read(s, s.policies[n].policy.arn).value;
    ReadLive(s, n);
    ChangedDocumentRotates(s, parse, s.policies[n].policy.arn, policy, doc);
    RotateOfSingle(s, n, policy, doc, UpdateOk);
    ReadRotated(s, n, doc);
  }

  lemma ReadRotated(s: Store, n: string, doc: Bytes)
    requires IndexOk(s) && n in s.policies && Single(s.policies[n])
    ensures
      var s' := Replace(s, n, Rotated(s.policies[n], doc, s.clock), s.clock + 1);
      var r := Read(s', s.policies[n].policy.arn);
      r.Ok? && r.value.document == doc <==> Plain(doc)
  {
    var mp' := Rotated(s.policies[n], doc, s.clock);
    ReplaceKeepsIndex(s, n, mp', s.clock + 1);
    ReadLive(Replace(s, n, mp', s.clock + 1), n);
    RawDocumentSurvives(doc);
  }

  /** An update to a document that parses the same writes nothing and returns the stored one. */
  lemma UpdateToEqualDocument(s: Store, parse: Parser, arn: string, doc: Bytes, f: UpdateFault)
    requires f != FirstReadFails && Read(s, arn).Ok?
    requires parse(doc).Some? && parse(Read(s, arn).value.document) == parse(doc)
    ensures Update(s, parse, arn, doc, f) == (s, Read(s, arn))
  {
  }

  /** A created policy reads back byte for byte, whatever its document. */
  lemma CreateThenRead(cs: ClientState, path: string, name: string, doc: Bytes, description: string)
    requires IndexOk(cs.store) && SlashFree(name) && name !in cs.store.policies && ValidPath(path)
    ensures
      var (cs', r) := Create(cs, path, name, doc, description, CreateOk);
      && r.Ok? && r.value.document == doc && r.value.arn == PolicyArn(cs.store.prefix, path, name)
      && r.value.name == name && r.value.description == description
      && Read(cs'.store, r.value.arn) == r
  {
    EscapeRoundTrip(doc);
  }

  /** The path and the ARN a created policy gets, written out. */
  lemma CreatedPolicyIs(cs: ClientState, account: string, path: string, name: string, doc: Bytes, description: string)
    requires cs.store.prefix == ArnPrefix(account) && name !in cs.store.policies
    ensures
      var s' := Create(cs, ClientPath(path), name, doc, description, CreateOk).0.store;
      && name in s'.policies && s'.policies[name].policy.path == Some("/" + path + "/")
      && s'.policies[name].policy.arn == "arn:aws:iam::" + account + ":policy" + ("/" + path + "/") + name
      && s'.policies[name].policy.description == description
  {
    assert |"/" + path + "/"| >= 2 && ("/" + path + "/")[|"/" + path + "/"| - 1] == '/';
  }

  // ----- runs -----

  /** The client alone changes versions, and no version delete fails. */
  predicate Steady(op: ClientOp) {
    && NamesSlashFree(op)
    && (op.ClientUpdate? ==> op.updateFault != DeleteVersionFails)
    && (op.Direct? ==> op.op.DirectCreate? || op.op.DirectDelete?)
  }

  lemma CreateIsSingle(s: Store, name: string, path: Option<string>, doc: Bytes, description: string)
    ensures Single(NewPolicy(s, name, path, doc, description))
  {
    VersionOne();
  }

  /** What a policy's later state may be, as long as it is the same incarnation: its number never
      falls, and while the number stays the versions stay. A policy older than the earlier state
      is a survivor of it. */
  ghost predicate Later(s: Store, s': Store) {
    && s.clock <= s'.clock
    && Dated(s)
    && (forall n {:trigger Marked(n)} :: Marked(n) && n in s'.policies && s'.policies[n].policy.createDate < s.clock ==>
          n in s.policies && Succeeds(s.policies[n], s'.policies[n]))
  }

  predicate Succeeds(mp0: ManagedPolicy, mp: ManagedPolicy) {
    && mp.policy.createDate == mp0.policy.createDate
    && Number(mp0) <= Number(mp)
    && (Number(mp0) == Number(mp) ==> mp.versions == mp0.versions)
  }

  ghost predicate Dated(s: Store) {
    forall n {:trigger Marked(n)} :: Marked(n) && n in s.policies ==> s.policies[n].policy.createDate < s.clock
  }

  lemma LaterTrans(a: Store, b: Store, c: Store)
    requires Later(a, b) && Later(b, c)
    ensures Later(a, c)
  {
  }

  ghost predicate SteadyState(s: Store) {
    IndexOk(s) && AllSingle(s) && Dated(s)
  }

  ghost predicate SteadyTo(s: Store, s': Store) {
    SteadyState(s') && Later(s, s')
  }

  lemma SteadyStay(s: Store)
    requires SteadyState(s)
    ensures SteadyTo(s, s)
  {
  }

  lemma SteadyCreate(s: Store, name: string, path: Option<string>, doc: Bytes, description: string)
    requires SteadyState(s) && SlashFree(name)
    ensures var s' := CreatePolicy(s, name, path, doc, description).0; SteadyTo(s, s')
  {
    CreateKeepsIndex(s, name, path, doc, description);
    if CreatePolicy(s, name, path, doc, description).1.Ok? {
      CreateIsSingle(s, name, path, doc, description);
      SteadyInsert(s, NewPolicy(s, name, path, doc, description));
    }
  }

  lemma SteadyInsert(s: Store, mp: ManagedPolicy)
    requires AllSingle(s) && Dated(s) && Single(mp) && mp.policy.createDate == s.clock
    ensures var s' := Insert(s, mp); AllSingle(s') && Dated(s') && Later(s, s')
  {
  }

  lemma SteadyDelete(s: Store, arn: string)
    requires SteadyState(s)
    ensures var s' := DeletePolicy(s, arn).0; SteadyTo(s, s')
  {
    DeleteKeepsIndex(s, arn);
  }

  lemma SteadyReplace(s: Store, n: string, mp: ManagedPolicy)
    requires AllSingle(s) && Dated(s) && n in s.policies && Single(mp) && Succeeds(s.policies[n], mp)
    ensures var s' := Replace(s, n, mp, s.clock + 1); AllSingle(s') && Dated(s') && Later(s, s')
  {
  }

  lemma SteadyUpdate(s: Store, parse: Parser, arn: string, doc: Bytes, f: UpdateFault)
    requires SteadyState(s) && f != DeleteVersionFails
    ensures var s' := Update(s, parse, arn, doc, f).0; SteadyTo(s, s')
  {
    UpdateKeepsIndex(s, parse, arn, doc, f);
    ReadFindsLive(s, arn);
    if arn in s.arns {
      var n := s.arns[arn];
      assert Marked(n) && Single(s.policies[n]);
      UpdateOfSingle(s, parse, n, doc, f);
      RotatedIsSingle(s.policies[n], doc, s.clock);
      SteadyReplace(s, n, Rotated(s.policies[n], doc, s.clock));
    }
  }

  lemma SteadyDirect(s: Store, d: StoreOp)
    requires SteadyState(s) && Steady(Direct(d))
    ensures var s' := ApplyStoreOp(s, d); SteadyTo(s, s')
  {
    if d.DirectCreate? { SteadyCreate(s, d.name, d.path, d.doc, d.description); } else { SteadyDelete(s, d.arn); }
  }

  lemma SteadyStep(cs: ClientState, path: string, parse: Parser, op: ClientOp)
    requires SteadyState(cs.store) && Steady(op)
    ensures var s' := Step(cs, path, parse, op).store; SteadyTo(cs.store, s')
  {
    match op
    case ClientCreate(name, doc, description, f) =>
      SteadyStay(cs.store);
      SteadyCreate(cs.store, name, Some(path), doc, description);
    case ClientUpdate(arn, doc, f) => SteadyUpdate(cs.store, parse, arn, doc, f);
    case ClientGet(o, f) => SteadyStay(cs.store);
    case ClientDelete(arn, fails) =>
      SteadyStay(cs.store);
      SteadyDelete(cs.store, arn);
    case Direct(d) => SteadyDirect(cs.store, d);
    case Evict(names) => SteadyStay(cs.store);
  }

  /** In every run with no failed version delete, every live policy has exactly one version, flagged
      default and named by the policy; a version number is never reused for another document. */
  lemma {:induction false} EveryRunIsSingleVersion(cs: ClientState, path: string, parse: Parser, ops: seq<ClientOp>)
    requires SteadyState(cs.store) && forall op :: op in ops ==> Steady(op)
    ensures var s' := Run(cs, path, parse, ops).store; SteadyTo(cs.store, s')
  {
    if ops != [] {
      var mid := Run(cs, path, parse, ops[..|ops| - 1]);
      EveryRunIsSingleVersion(cs, path, parse, ops[..|ops| - 1]);
      SteadyStep(mid, path, parse, ops[|ops| - 1]);
      LaterTrans(cs.store, mid.store, Run(cs, path, parse, ops).store);
    }
  }

  lemma FreshServiceIsSteady(prefix: string)
    ensures SteadyState(Empty(prefix))
  {
  }

  // ----- the number and the document, counted over a run -----

  /** The call gets a changed document of the policy `n` stored. */
  predicate Revises(s: Store, parse: Parser, op: ClientOp, n: string) {
    && op.ClientUpdate? && n in s.policies && op.arn == s.policies[n].policy.arn
    && op.updateFault != FirstReadFails && op.updateFault != NewVersionFails
    && var was := Read(s, op.arn);
       && was.Ok? && parse(was.value.document).Some? && parse(op.doc).Some?
       && parse(was.value.document) != parse(op.doc)
  }

  /** The document a creating call brings, as the service stores it. */
  function NewDocument(op: ClientOp): Bytes {
    match op
    case ClientCreate(_, doc, _, _) => QueryEscape(doc)
    case Direct(DirectCreate(_, _, doc, _)) => QueryEscape(doc)
    case _ => []
  }

  /** A version number and the stored document. */
  datatype Content = Content(number: int, stored: Bytes)

  /** What the calls say of the policy `n`: one for the call that made it, one more for each call since
      that changed its document, and the document that call brought. */
  ghost function Counted(cs: ClientState, path: string, parse: Parser, ops: seq<ClientOp>, n: string): Option<Content>
    decreases |ops|
  {
    if n !in Run(cs, path, parse, ops).store.policies || ops == [] then None
    else
      var init, op := ops[..|ops| - 1], ops[|ops| - 1];
      var before := Run(cs, path, parse, init).store;
      var was := Counted(cs, path, parse, init, n);
      if n !in before.policies || was.None? then Some(Content(1, NewDocument(op)))
      else if Revises(before, parse, op, n) then Some(Content(was.value.number + 1, op.doc))
      else was
  }

  /** What one call does to one policy, which has one version before and after. */
  ghost predicate Counts(s: Store, s': Store, parse: Parser, op: ClientOp, n: string) {
    n in s'.policies ==>
      if n !in s.policies then
        && Single(s'.policies[n]) && Number(s'.policies[n]) == 1 && DefaultDocument(s'.policies[n]) == NewDocument(op)
      else if Revises(s, parse, op, n) then s'.policies[n] == Rotated(s.policies[n], op.doc, s.clock)
      else s'.policies[n] == s.policies[n]
  }

  lemma UpdateCounts(cs: ClientState, path: string, parse: Parser, op: ClientOp, n: string)
    requires SteadyState(cs.store) && op.ClientUpdate? && op.updateFault != DeleteVersionFails
    ensures Counts(cs.store, Step(cs, path, parse, op).store, parse, op, n)
  {
    var s := cs.store;
    ReadFindsLive(s, op.arn);
    if op.arn in s.arns {
      var m := s.arns[op.arn];
      assert Marked(m) && Single(s.policies[m]);
      UpdateOfSingle(s, parse, m, op.doc, op.updateFault);
      ReadLive(s, m);
    }
    if n in s.policies { IndexAt(s, n); }
  }

  lemma NewCounts(s: Store, name: string, path: Option<string>, doc: Bytes, description: string)
    ensures
      var mp := NewPolicy(s, name, path, doc, description);
      Single(mp) && Number(mp) == 1 && DefaultDocument(mp) == QueryEscape(doc)
  {
    VersionOne();
  }

  lemma StepCounts(cs: ClientState, path: string, parse: Parser, op: ClientOp, n: string)
    requires SteadyState(cs.store) && Steady(op)
    ensures Counts(cs.store, Step(cs, path, parse, op).store, parse, op, n)
  {
    match op
    case ClientCreate(name, doc, description, _) => NewCounts(cs.store, name, Some(path), doc, description);
    case ClientUpdate(_, _, _) => UpdateCounts(cs, path, parse, op, n);
    case Direct(d) => if d.DirectCreate? { NewCounts(cs.store, d.name, d.path, d.doc, d.description); }
    case _ =>
  }

  /** In every run from the empty service with no failed version delete, each live policy has exactly one
      version; its number is one plus the number of calls since its creation that changed its document,
      and it holds the document of the last of them, stored raw, or the one it was created with, escaped. */
  lemma {:induction false} VersionNumberCounts(prefix: string, path: string, parse: Parser, ops: seq<ClientOp>,
                                               n: string)
    requires forall op :: op in ops ==> Steady(op)
    ensures
      var start := ClientState(Empty(prefix), map[]);
      var s := Run(start, path, parse, ops).store;
      n in s.policies ==>
        && Single(s.policies[n])
        && Counted(start, path, parse, ops, n) == Some(Content(Number(s.policies[n]), DefaultDocument(s.policies[n])))
  {
    if ops != [] {
      var start, init, op := ClientState(Empty(prefix), map[]), ops[..|ops| - 1], ops[|ops| - 1];
      VersionNumberCounts(prefix, path, parse, init, n);
      FreshServiceIsSteady(prefix);
      EveryRunIsSingleVersion(start, path, parse, init);
      var before := Run(start, path, parse, init);
      StepCounts(before, path, parse, op, n);
      if n in before.store.policies {
        RotatedIsSingle(before.store.policies[n], if op.ClientUpdate? then op.doc else [], before.store.clock);
      }
    }
  }

  /** The next version would take the name of the default one. */
  ghost predicate Clashes(mp: ManagedPolicy) {
    mp.versions != map[] && NextId(mp.versions) == mp.policy.defaultVersionId
  }

  lemma TwoVersions(mp: ManagedPolicy, doc: Bytes, clock: nat)
    requires Single(mp) && mp.versions[mp.policy.defaultVersionId].createDate < clock
    ensures
      var added := AddVersion(mp, PolicyVersion(doc, NextId(mp.versions), true, clock));
      |added.versions| == 2 && !Single(added) && Clashes(added)
  {
    NextOfSingle(mp);
    var d, id := mp.policy.defaultVersionId, NextId(mp.versions);
    var added := AddVersion(mp, PolicyVersion(doc, id, true, clock));
    assert added.versions.Keys == {d, id} && |added.versions| == |added.versions.Keys|;
    assert d in mp.versions && d in added.versions && added.versions[d].versionId == d;
    assert Latest(added.versions) == d;
  }

  /** A failed version delete is enough to lose it: two versions remain. */
  lemma FailedDeleteLeavesTwo(s: Store, n: string, policy: IamPolicy, doc: Bytes)
    requires IndexOk(s) && n in s.policies && Single(s.policies[n]) && policy.arn == s.policies[n].policy.arn
    requires s.policies[n].versions[s.policies[n].policy.defaultVersionId].createDate < s.clock
    ensures
      var (s', r) := Rotate(s, policy, doc, DeleteVersionFails);
      && r.Err? && n in s'.policies && |s'.policies[n].versions| == 2 && !Single(s'.policies[n])
      && Clashes(s'.policies[n])
  {
    IndexAt(s, n);
    NextOfSingle(s.policies[n]);
    TwoVersions(s.policies[n], doc, s.clock);
  }

  /** The next rotation cannot succeed: the oldest version gives the newest one's name, so the new
      document overwrites the default, and deleting that default is refused. */
  lemma RotationStaysStuck(s: Store, n: string, policy: IamPolicy, doc: Bytes)
    requires IndexOk(s) && n in s.policies
    requires policy.arn == s.policies[n].policy.arn && policy.versionId == s.policies[n].policy.defaultVersionId
    requires Clashes(s.policies[n]) && |s.policies[n].versions| < VERSION_LIMIT
    ensures
      var (s', r) := Rotate(s, policy, doc, UpdateOk);
      && r == Err(DeleteConflict) && n in s'.policies
      && s'.policies[n].policy == s.policies[n].policy
      && policy.versionId in s'.policies[n].versions && s'.policies[n].versions[policy.versionId].document == doc
  {
    IndexAt(s, n);
  }
}

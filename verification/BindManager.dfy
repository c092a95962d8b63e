/** `BindManager`: reads a role's trust document, edits its statements in place and writes it back
    when the comparison with the original, which shares those statements, sees a change. */
module BindManager {
  import opened Common
  import opened RoleStore
  import opened Runs
  import opened TrustPolicy
  import Sid = SidLabel
  import RC = RoleClient
  import IamRoleClient

  /** JSON decoding into the document type (None is its error) and encoding. */
  datatype Codec = Codec(parse: Bytes -> Option<Document>, marshal: Document -> Bytes)

  ghost predicate RoundTrips(codec: Codec) {
    forall d {:trigger codec.marshal(d)} :: codec.parse(codec.marshal(d)) == Some(d) && codec.marshal(d) != []
  }

  datatype BindFault = BindFault(get: bool, update: RC.UpdateFault)

  const NO_BIND_FAULT := BindFault(false, RC.UpdateOk)

  function BindRole(rs: RoleState, codec: Codec, oidcArn: string, name: string, sid: string, refs: seq<Subject>,
                    f: BindFault)
    : (RoleState, Result<()>)
  {
    var upstream := RC.Get(rs, name, f.get);
    if upstream.Err? then (rs, Err(upstream.error))
    else
      var d := codec.parse(upstream.value.trustPolicy);
      if d.None? then (rs, Err(BadJson))
      else if !Writes(d.value, sid, refs) then (rs, Ok(()))
      else
        var (rs', r) := RC.Update(rs, name, codec.marshal(Built(d.value, sid, oidcArn, refs)), "", 0, f.update);
        (rs', if r.Err? then Err(r.error) else Ok(()))
  }

  // ----- what a call does to the role -----

  ghost predicate ShowsDocument(rs: RoleState, codec: Codec, name: string, d: Document) {
    var role := RC.ReadRole(rs, name);
    role.Ok? && codec.parse(role.value.trustPolicy) == Some(d)
  }

  /** A call that gets through leaves the role with the document of `Upstream`: the one built when it
      appends or removes, the one it had when it would replace. Every other role stays. */
  lemma BindShows(rs: RoleState, codec: Codec, oidcArn: string, name: string, sid: string, refs: seq<Subject>,
                  f: BindFault, d: Document)
    requires RoundTrips(codec) && ShowsDocument(rs, codec, name, d)
    ensures
      var (rs', r) := BindRole(rs, codec, oidcArn, name, sid, refs, f);
      && ShowsDocument(rs', codec, name, if Lands(f) then Upstream(d, sid, oidcArn, refs) else d)
      && rs'.roles - {name} == rs.roles - {name} && rs'.attachments == rs.attachments
      && (f == NO_BIND_FAULT ==> r.Ok?)
      && (refs != [] && Found(d.statements, sid) >= 0 ==> rs' == rs)
  {
    if !f.get && Writes(d, sid, refs) {
      RC.UpdateThenGet(rs, name, codec.marshal(Built(d, sid, oidcArn, refs)), "", 0, f.update);
    }
  }

  /** A role that is missing, cannot be read or has a document that does not parse makes the call fail,
      and then nothing changes. */
  lemma BindRefuses(rs: RoleState, codec: Codec, oidcArn: string, name: string, sid: string, refs: seq<Subject>,
                    f: BindFault)
    requires forall d :: !ShowsDocument(rs, codec, name, d)
    ensures
      var (rs', r) := BindRole(rs, codec, oidcArn, name, sid, refs, f);
      rs' == rs && r.Err?
        && (!f.get ==> r.error == if RC.ReadRole(rs, name).Err? then RC.ReadRole(rs, name).error else BadJson)
  {
    var role := RC.ReadRole(rs, name);
    if role.Ok? && codec.parse(role.value.trustPolicy).Some? {
      assert ShowsDocument(rs, codec, name, codec.parse(role.value.trustPolicy).value);
    }
  }

  /** Whether a failing call still has its effect. */
  predicate Lands(f: BindFault) {
    !f.get && f.update != RC.TrustFails
  }

  datatype Call = Call(refs: seq<Subject>, fault: BindFault)

  ghost function RunCalls(rs: RoleState, codec: Codec, oidcArn: string, name: string, sid: string, calls: seq<Call>)
    : RoleState
  {
    Run((r: RoleState, call: Call) => BindRole(r, codec, oidcArn, name, sid, call.refs, call.fault).0, rs, calls)
  }

  /** The account lists of the calls that got through. */
  function Landed(calls: seq<Call>): seq<seq<Subject>> {
    if calls == [] then []
    else
      var rest, last := Landed(calls[..|calls| - 1]), calls[|calls| - 1];
      if Lands(last.fault) then rest + [last.refs] else rest
  }

  lemma {:induction false} RunCallsShow(rs: RoleState, codec: Codec, oidcArn: string, name: string, sid: string,
                                        calls: seq<Call>, d: Document)
    requires RoundTrips(codec) && ShowsDocument(rs, codec, name, d)
    ensures ShowsDocument(RunCalls(rs, codec, oidcArn, name, sid, calls), codec, name,
      RunBinds(d, sid, oidcArn, Landed(calls)))
  {
    if calls != [] {
      var init, last := calls[..|calls| - 1], calls[|calls| - 1];
      RunCallsShow(rs, codec, oidcArn, name, sid, init, d);
      var before := RunCalls(rs, codec, oidcArn, name, sid, init);
      BindShows(before, codec, oidcArn, name, sid, last.refs, last.fault, RunBinds(d, sid, oidcArn, Landed(init)));
      if Lands(last.fault) { assert Landed(calls)[..|Landed(calls)| - 1] == Landed(init); }
    }
  }

  /** Propagation: after any run of calls, failing ones included, on a role without the managed
      statement, the role's document grants through it exactly the accounts of the first call that
      landed since the last removal that landed, and keeps the other statements in order. */
  lemma RunCallsGrant(rs: RoleState, codec: Codec, oidcArn: string, name: string, sid: string, calls: seq<Call>,
                      d: Document,
                      context: map<string, string>)
    requires RoundTrips(codec) && ShowsDocument(rs, codec, name, d) && Labelled(d.statements, sid) == []
    ensures
      var role := RC.ReadRole(RunCalls(rs, codec, oidcArn, name, sid, calls), name);
      role.Ok? &&
      var u := codec.parse(role.value.trustPolicy);
      && u.Some? && Others(u.value.statements, sid) == Others(d.statements, sid)
      && (GrantsThrough(u.value, sid, oidcArn, context) <==> SpeaksFor(oidcArn, InForce(Landed(calls)), context))
  {
    RunCallsShow(rs, codec, oidcArn, name, sid, calls, d);
    UpstreamIsInForce(d, sid, oidcArn, Landed(calls));
    RunGrants(d, sid, oidcArn, Landed(calls), context);
  }

  // ----- the manager -----

  /** `policyDocument`: a slice is an array and the count of its elements in use. */
  class TrustDocument {
    var version: string
    var statements: array<Statement>
    var count: nat

    ghost predicate Valid()
      reads this
    {
      count <= statements.Length
    }

    ghost function Value(): Document
      reads this, statements
      requires Valid()
    {
      Document(version, statements[..count])
    }

    constructor (d: Document, spare: nat)
      ensures Valid() && Value() == d && fresh(statements)
    {
      version, count := d.version, |d.statements|;
      statements := new Statement[|d.statements| + spare];
      new;
      var a := statements;
      for i := 0 to |d.statements|
        invariant a == statements && fresh(a) && count == |d.statements| && version == d.version
        invariant a.Length == |d.statements| + spare && a[..i] == d.statements[..i]
      {
        a[i] := d.statements[i];
      }
    }

    /** The struct copy `*original = *doc`: the statements are shared. */
    method Assign(other: TrustDocument)
      requires other.Valid()
      modifies this
      ensures Valid() && version == other.version && statements == other.statements && count == other.count
    {
      version, statements, count := other.version, other.statements, other.count;
    }

    /** `append`: in place when there is capacity, into a copy otherwise. */
    method Append(st: Statement)
      requires Valid()
      modifies this`statements, this`count, statements
      ensures Valid() && Value() == old(Value()).(statements := old(Value().statements) + [st])
      ensures old(statements)[..old(count)] == old(statements[..count])
    {
      if count < statements.Length {
        statements[count] := st;
      } else {
        var grown := new Statement[count + 1];
        for i := 0 to count
          modifies grown
          invariant grown[..i] == statements[..i]
        {
          grown[i] := statements[i];
        }
        grown[count] := st;
        statements := grown;
      }
      count := count + 1;
    }

    /** The rebuilt slice without the statement at `k`. */
    method Remove(k: nat)
      requires Valid() && k < count
      modifies this`statements, this`count
      ensures Valid()
        && Value() == old(Value()).(statements := old(statements[..count])[..k] + old(statements[..count])[k + 1..])
    {
      ghost var before := statements[..count];
      var kept := new Statement[count - 1];
      for i := 0 to count
        modifies kept
        invariant if i <= k then kept[..i] == before[..i] else kept[..i - 1] == before[..k] + before[k + 1..i]
      {
        if i < k { kept[i] := statements[i]; }
        if i > k { kept[i - 1] := statements[i]; }
      }
      statements, count := kept, count - 1;
      assert kept[..count] == before[..k] + before[k + 1..];
    }

    /** `reflect.DeepEqual`. */
    method Same(other: TrustDocument) returns (same: bool)
      requires Valid() && other.Valid()
      ensures same <==> Value() == other.Value()
    {
      same := version == other.version && statements[..count] == other.statements[..other.count];
    }

    method Marshal(codec: Codec) returns (text: Bytes)
      requires Valid()
      ensures text == codec.marshal(Value())
    {
      text := codec.marshal(Document(version, statements[..count]));
    }

    method Find(sid: string) returns (found: int)
      requires Valid()
      ensures found == Found(statements[..count], sid)
    {
      found := -1;
      for k := 0 to count
        invariant found == Found(statements[..k], sid)
      {
        assert statements[..k + 1][..k] == statements[..k];
        if statements[k].sid == sid { found := k; }
      }
    }
  }

  class BindManager {
    const roles: IamRoleClient.Client
    const oidcArn: string
    const issuer: string
    const codec: Codec

    ghost predicate Valid() {
      issuer == Issuer(oidcArn)
    }

    constructor (roles: IamRoleClient.Client, oidcArn: string, codec: Codec)
      ensures Valid() && this.roles == roles && this.oidcArn == oidcArn && this.codec == codec
    {
      this.roles, this.oidcArn, this.codec := roles, oidcArn, codec;
      issuer := oidcArn[SlashIndex(oidcArn) + 1..] + ":sub";
    }

    method ManagedStatement(sid: string, refs: seq<Subject>) returns (stmt: Statement)
      requires Valid()
      ensures stmt == Managed(sid, oidcArn, refs)
    {
      var accounts: seq<string> := [];
      for i := 0 to |refs|
        invariant accounts == Formatted(refs[..i])
      {
        accounts := accounts + [SubjectFormat(refs[i])];
      }
      assert refs[..|refs|] == refs;
      var value := JArr(seq(|accounts|, i requires 0 <= i < |accounts| => JStr(accounts[i])));
      if |accounts| == 1 { value := JStr(accounts[0]); }
      stmt := Statement(sid, EFFECT_ALLOW, JNull, oidcArn, ACTION_ASSUME_ROLE_WITH_WEB_IDENTITY, map[issuer := value]);
    }

    /** Edits `doc`, of which `original` is the struct copy: `doc` becomes the document built, and the
        two differ afterwards exactly when a statement was appended or removed. */
    method Edit(doc: TrustDocument, original: TrustDocument, sid: string, refs: seq<Subject>)
      requires Valid() && doc.Valid() && doc != original
      requires original.version == doc.version && original.statements == doc.statements && original.count == doc.count
      modifies doc`statements, doc`count, doc.statements
      ensures doc.Valid() && original.Valid() && doc.Value() == Built(old(doc.Value()), sid, oidcArn, refs)
      ensures doc.Value() != original.Value() <==> Writes(old(doc.Value()), sid, refs)
    {
      var found := doc.Find(sid);
      var stmt := ManagedStatement(sid, refs);
      if found < 0 {
        if |refs| > 0 {
          doc.Append(stmt);
          assert |doc.Value().statements| == |original.Value().statements| + 1;
        }
      } else if |refs| == 0 {
        doc.Remove(found);
        assert |doc.Value().statements| == |original.Value().statements| - 1;
      } else {
        doc.statements[found] := stmt;
        assert doc.Value() == original.Value();
      }
    }

    method Bind(name: string, namespace: string, refs: seq<Subject>, f: BindFault) returns (r: Result<()>)
      requires Valid()
      modifies roles.service`roles
      ensures (roles.State(), r)
        == BindRole(old(roles.State()), codec, oidcArn, name, Sid.SidLabel(name, namespace), refs, f)
    {
      var sid := Sid.SidLabel(name, namespace);
      var upstream := roles.Get(name, f.get);
      if upstream.Err? { return Err(upstream.error); }
      var parsed := codec.parse(upstream.value.trustPolicy);
      if parsed.None? { return Err(BadJson); }
      var spare: nat :| true;
      var doc := new TrustDocument(parsed.value, spare);
      var original := new TrustDocument(Document("", []), 0);
      original.Assign(doc);
      Edit(doc, original, sid, refs);
      var same := doc.Same(original);
      if !same {
        var text := doc.Marshal(codec);
        var out := roles.Update(name, text, "", 0, f.update);
        if out.Err? { return Err(out.error); }
      }
      r := Ok(());
    }
  }
}

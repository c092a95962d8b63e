/** The trust document of a role: the statement the bind manager keeps in it, what that statement
    admits, and which of the manager's edits reach the role. */
module TrustPolicy {
  import opened Common
  import opened Runs

  /** A condition with no operator, a missing principal and an absent field are their zero values. */
  datatype Statement = Statement(sid: string, effect: string, aws: Json, federated: string, action: string,
                                 stringEquals: map<string, Json>)

  datatype Document = Document(version: string, statements: seq<Statement>)

  datatype Subject = Subject(namespace: string, name: string)

  const EFFECT_ALLOW := "Allow"
  const ACTION_ASSUME_ROLE_WITH_WEB_IDENTITY := "sts:AssumeRoleWithWebIdentity"
  const SUBJECT_PREFIX := "system:serviceaccount:"

  /** `serviceAccountFormat`. */
  function SubjectFormat(s: Subject): string {
    SUBJECT_PREFIX + s.namespace + ":" + s.name
  }

  function Formatted(refs: seq<Subject>): seq<string> {
    seq(|refs|, i requires 0 <= i < |refs| => SubjectFormat(refs[i]))
  }

  /** `strings.Index(s, "/")`, -1 when there is none. */
  function SlashIndex(s: string): (k: int)
    ensures -1 <= k < |s|
  {
    if s == "" then -1 else if s[0] == '/' then 0
    else if SlashIndex(s[1..]) < 0 then -1 else SlashIndex(s[1..]) + 1
  }

  function Issuer(oidcArn: string): string {
    oidcArn[SlashIndex(oidcArn) + 1..] + ":sub"
  }

  /** One account is written as a string, any other number as a list. */
  function Accounts(l: seq<string>): Json {
    if |l| == 1 then JStr(l[0]) else JArr(seq(|l|, i requires 0 <= i < |l| => JStr(l[i])))
  }

  function Managed(sid: string, oidcArn: string, refs: seq<Subject>): Statement {
    Statement(sid, EFFECT_ALLOW, JNull, oidcArn, ACTION_ASSUME_ROLE_WITH_WEB_IDENTITY,
              map[Issuer(oidcArn) := Accounts(Formatted(refs))])
  }

  // ----- the edit -----

  /** The last statement with the label, -1 when there is none. */
  function Found(sts: seq<Statement>, sid: string): (k: int)
    ensures -1 <= k < |sts|
    ensures k >= 0 ==> sts[k].sid == sid
    ensures forall i :: k < i < |sts| ==> sts[i].sid != sid
  {
    if sts == [] then -1
    else if sts[|sts| - 1].sid == sid then |sts| - 1
    else Found(sts[..|sts| - 1], sid)
  }

  function Edited(sts: seq<Statement>, stmt: Statement, any: bool): seq<Statement> {
    var k := Found(sts, stmt.sid);
    if k < 0 then if any then sts + [stmt] else sts
    else if any then sts[k := stmt] else sts[..k] + sts[k + 1..]
  }

  /** The document the manager builds for the accounts `refs`. */
  function Built(d: Document, sid: string, oidcArn: string, refs: seq<Subject>): Document {
    d.(statements := Edited(d.statements, Managed(sid, oidcArn, refs), refs != []))
  }

  /** Whether the comparison with the original sees the edit. The original shares its statements with
      the edited document, so a statement replaced in place looks unchanged. */
  predicate Writes(d: Document, sid: string, refs: seq<Subject>) {
    (Found(d.statements, sid) < 0) == (refs != [])
  }

  // ----- what a statement means -----

  /** A `StringEquals` value matches when it is the string or a list holding it. */
  predicate Matches(v: Json, s: string) {
    v == JStr(s) || (v.JArr? && JStr(s) in v.items)
  }

  /** A request by a token of the provider carries `context`; every condition key must match in it. */
  predicate Grants(st: Statement, oidcArn: string, context: map<string, string>) {
    && st.effect == "Allow" && st.federated == oidcArn && st.action == "sts:AssumeRoleWithWebIdentity"
    && forall k :: k in st.stringEquals ==> k in context && Matches(st.stringEquals[k], context[k])
  }

  ghost predicate GrantsThrough(d: Document, sid: string, oidcArn: string, context: map<string, string>) {
    exists st :: st in d.statements && st.sid == sid && Grants(st, oidcArn, context)
  }

  /** The token's subject is one of the accounts. */
  ghost predicate SpeaksFor(oidcArn: string, refs: seq<Subject>, context: map<string, string>) {
    Issuer(oidcArn) in context && exists r :: r in refs && context[Issuer(oidcArn)] == SubjectFormat(r)
  }

  /** Both encodings of an account list mean membership in it. */
  lemma AccountsMeanMembership(l: seq<string>, s: string)
    ensures Matches(Accounts(l), s) <==> s in l
  {
    if |l| != 1 {
      var items := Accounts(l).items;
      assert |items| == |l| && forall i :: 0 <= i < |l| ==> items[i] == JStr(l[i]);
      if s in l {
        var i :| 0 <= i < |l| && l[i] == s;
        assert items[i] == JStr(s);
      }
    }
  }

  lemma FormattedMembers(refs: seq<Subject>, s: string)
    ensures s in Formatted(refs) <==> exists r :: r in refs && s == SubjectFormat(r)
  {
    if s in Formatted(refs) {
      var i :| 0 <= i < |refs| && Formatted(refs)[i] == s;
      assert refs[i] in refs;
    }
    if r :| r in refs && s == SubjectFormat(r) {
      var i :| 0 <= i < |refs| && refs[i] == r;
      assert Formatted(refs)[i] == s;
    }
  }

  /** The managed statement, field by field. */
  lemma ManagedIs(sid: string, oidcArn: string, refs: seq<Subject>)
    ensures
      var st := Managed(sid, oidcArn, refs);
      && st.sid == sid && st.effect == "Allow" && st.aws == JNull && st.federated == oidcArn
      && st.action == "sts:AssumeRoleWithWebIdentity" && st.stringEquals.Keys == {Issuer(oidcArn)}
      && var v := st.stringEquals[Issuer(oidcArn)];
         if |refs| == 1 then v == JStr("system:serviceaccount:" + refs[0].namespace + ":" + refs[0].name)
         else v.JArr? && |v.items| == |refs|
              && forall i :: 0 <= i < |refs| ==>
                   v.items[i] == JStr("system:serviceaccount:" + refs[i].namespace + ":" + refs[i].name)
  {
  }

  /** The managed statement grants a request exactly when its token speaks for one of the accounts. */
  lemma ManagedGrants(sid: string, oidcArn: string, refs: seq<Subject>, context: map<string, string>)
    ensures Grants(Managed(sid, oidcArn, refs), oidcArn, context) <==> SpeaksFor(oidcArn, refs, context)
  {
    var issuer, st := Issuer(oidcArn), Managed(sid, oidcArn, refs);
    assert forall k :: k in st.stringEquals <==> k == issuer;
    if issuer in context {
      AccountsMeanMembership(Formatted(refs), context[issuer]);
      FormattedMembers(refs, context[issuer]);
    }
  }

  // ----- what the edit keeps -----

  /** The statements with the label, or those with another one. */
  function Select(sts: seq<Statement>, sid: string, labelled: bool): seq<Statement> {
    if sts == [] then []
    else
      var rest, st := Select(sts[..|sts| - 1], sid, labelled), sts[|sts| - 1];
      if (st.sid == sid) == labelled then rest + [st] else rest
  }

  function Others(sts: seq<Statement>, sid: string): seq<Statement> { Select(sts, sid, false) }

  function Labelled(sts: seq<Statement>, sid: string): seq<Statement> { Select(sts, sid, true) }

  lemma {:induction false} SelectMembers(sts: seq<Statement>, sid: string, labelled: bool)
    ensures forall st :: st in Select(sts, sid, labelled) <==> st in sts && (st.sid == sid) == labelled
  {
    if sts != [] {
      SelectMembers(sts[..|sts| - 1], sid, labelled);
      assert sts == sts[..|sts| - 1] + [sts[|sts| - 1]];
    }
  }

  lemma {:induction false} SelectConcat(a: seq<Statement>, b: seq<Statement>, sid: string, labelled: bool)
    ensures Select(a + b, sid, labelled) == Select(a, sid, labelled) + Select(b, sid, labelled)
  {
    if b == [] {
      assert a + b == a;
    } else {
      SelectConcat(a, b[..|b| - 1], sid, labelled);
      assert (a + b)[..|a + b| - 1] == a + b[..|b| - 1];
    }
  }

  lemma {:induction false} NoneLabelled(sts: seq<Statement>, sid: string)
    requires forall i :: 0 <= i < |sts| ==> sts[i].sid != sid
    ensures Labelled(sts, sid) == []
  {
    if sts != [] { NoneLabelled(sts[..|sts| - 1], sid); }
  }

  lemma SelectOne(st: Statement, sid: string, labelled: bool)
    ensures Select([st], sid, labelled) == if (st.sid == sid) == labelled then [st] else []
  {
    assert [st][..0] == [];
  }

  /** The statements before and after the one found; no later one has the label. */
  lemma SplitAtFound(sts: seq<Statement>, sid: string, labelled: bool)
    requires Found(sts, sid) >= 0
    ensures
      var k := Found(sts, sid);
      && Select(sts, sid, labelled)
           == Select(sts[..k], sid, labelled) + (if labelled then [sts[k]] else Select(sts[k + 1..], sid, false))
      && Select(sts[k + 1..], sid, true) == []
  {
    var k := Found(sts, sid);
    assert sts == sts[..k] + [sts[k]] + sts[k + 1..];
    SelectConcat(sts[..k] + [sts[k]], sts[k + 1..], sid, labelled);
    SelectConcat(sts[..k], [sts[k]], sid, labelled);
    SelectOne(sts[k], sid, labelled);
    NoneLabelled(sts[k + 1..], sid);
  }

  lemma EditSelects(sts: seq<Statement>, stmt: Statement, any: bool, labelled: bool)
    requires Found(sts, stmt.sid) >= 0
    ensures
      var k := Found(sts, stmt.sid);
      Select(Edited(sts, stmt, any), stmt.sid, labelled) ==
        Select(sts[..k], stmt.sid, labelled)
          + (if labelled then (if any then [stmt] else []) else Select(sts[k + 1..], stmt.sid, false))
  {
    var k, sid := Found(sts, stmt.sid), stmt.sid;
    SplitAtFound(sts, sid, labelled);
    if any {
      assert sts[k := stmt] == sts[..k] + [stmt] + sts[k + 1..];
      SelectConcat(sts[..k] + [stmt], sts[k + 1..], sid, labelled);
      SelectConcat(sts[..k], [stmt], sid, labelled);
      SelectOne(stmt, sid, labelled);
    } else {
      SelectConcat(sts[..k], sts[k + 1..], sid, labelled);
    }
  }

  lemma FoundIffLabelled(sts: seq<Statement>, sid: string)
    ensures Found(sts, sid) < 0 <==> Labelled(sts, sid) == []
  {
    if Found(sts, sid) < 0 {
      NoneLabelled(sts, sid);
    } else {
      SplitAtFound(sts, sid, true);
    }
  }

  /** The edit keeps every statement with another label, in order. */
  lemma EditKeepsOthers(sts: seq<Statement>, stmt: Statement, any: bool)
    ensures Others(Edited(sts, stmt, any), stmt.sid) == Others(sts, stmt.sid)
  {
    if Found(sts, stmt.sid) >= 0 {
      SplitAtFound(sts, stmt.sid, false);
      EditSelects(sts, stmt, any, false);
    } else if any {
      SelectConcat(sts, [stmt], stmt.sid, false);
      SelectOne(stmt, stmt.sid, false);
    }
  }

  /** Of the labelled statements it replaces the last one, drops the last one, or adds the first. */
  lemma EditLabelled(sts: seq<Statement>, stmt: Statement, any: bool)
    ensures
      var before := Labelled(sts, stmt.sid);
      Labelled(Edited(sts, stmt, any), stmt.sid) ==
        (if before == [] then [] else before[..|before| - 1]) + (if any then [stmt] else [])
  {
    FoundIffLabelled(sts, stmt.sid);
    if Found(sts, stmt.sid) >= 0 {
      SplitAtFound(sts, stmt.sid, true);
      EditSelects(sts, stmt, any, true);
    } else if any {
      SelectConcat(sts, [stmt], stmt.sid, true);
      SelectOne(stmt, stmt.sid, true);
    }
  }

  /** With at most one managed statement before, the document built has one exactly when there are
      accounts, and grants through it exactly the requests whose token speaks for one of them; other
      statements stay as they were, in order. */
  lemma BuiltGrantsExactly(d: Document, sid: string, oidcArn: string, refs: seq<Subject>, context: map<string, string>)
    requires |Labelled(d.statements, sid)| <= 1
    ensures
      var b := Built(d, sid, oidcArn, refs);
      && b.version == d.version && Others(b.statements, sid) == Others(d.statements, sid)
      && Labelled(b.statements, sid) == (if refs == [] then [] else [Managed(sid, oidcArn, refs)])
      && (GrantsThrough(b, sid, oidcArn, context) <==> SpeaksFor(oidcArn, refs, context))
  {
    var stmt := Managed(sid, oidcArn, refs);
    EditKeepsOthers(d.statements, stmt, refs != []);
    EditLabelled(d.statements, stmt, refs != []);
    SelectMembers(Built(d, sid, oidcArn, refs).statements, sid, true);
    ManagedGrants(sid, oidcArn, refs, context);
    if refs != [] { assert stmt in [stmt]; }
  }

  // ----- names -----

  predicate ColonFree(s: string) { ':' !in s }

  lemma {:induction false} ColonSplits(a: string, b: string, c: string, d: string)
    requires ColonFree(a) && ColonFree(c) && a + ":" + b == c + ":" + d
    ensures a == c && b == d
  {
    var x, y := a + ":" + b, c + ":" + d;
    assert x[0] == y[0] && x[0] == (if a == "" then ':' else a[0]) && y[0] == (if c == "" then ':' else c[0]);
    if a == "" || c == "" {
      assert x[1..] == b && y[1..] == d;
    } else {
      assert x[1..] == a[1..] + ":" + b && y[1..] == c[1..] + ":" + d;
      ColonSplits(a[1..], b, c[1..], d);
      assert a == [a[0]] + a[1..] && c == [c[0]] + c[1..];
    }
  }

  /** On colon-free namespaces a subject string names one service account. */
  lemma SubjectInjective(a: Subject, b: Subject)
    requires ColonFree(a.namespace) && ColonFree(b.namespace)
    ensures SubjectFormat(a) == SubjectFormat(b) <==> a == b
  {
    var n := |SUBJECT_PREFIX|;
    assert SubjectFormat(a)[n..] == a.namespace + ":" + a.name;
    assert SubjectFormat(b)[n..] == b.namespace + ":" + b.name;
    if SubjectFormat(a) == SubjectFormat(b) { ColonSplits(a.namespace, a.name, b.namespace, b.name); }
  }

  /** The document built admits the subject of a service account exactly when it is one of those given. */
  lemma BuiltAdmitsAccount(d: Document, sid: string, oidcArn: string, refs: seq<Subject>, account: Subject)
    requires |Labelled(d.statements, sid)| <= 1
    requires ColonFree(account.namespace) && forall r :: r in refs ==> ColonFree(r.namespace)
    ensures
      var context := map[Issuer(oidcArn) := SubjectFormat(account)];
      GrantsThrough(Built(d, sid, oidcArn, refs), sid, oidcArn, context) <==> account in refs
  {
    var context := map[Issuer(oidcArn) := SubjectFormat(account)];
    BuiltGrantsExactly(d, sid, oidcArn, refs, context);
    forall r | r in refs ensures SubjectFormat(r) == SubjectFormat(account) <==> r == account {
      SubjectInjective(r, account);
    }
  }

  /** The issuer is what follows the first slash of the provider's ARN, or all of it without one. */
  lemma {:induction false} IssuerAfterSlash(head: string, tail: string)
    requires '/' !in head
    ensures Issuer(head + "/" + tail) == tail + ":sub" && Issuer(head) == head + ":sub"
  {
    var arn := head + "/" + tail;
    SlashFound(head, tail);
    assert arn[|head| + 1..] == tail && head[0..] == head;
  }

  lemma {:induction false} SlashFound(head: string, tail: string)
    requires '/' !in head
    ensures SlashIndex(head + "/" + tail) == |head| && SlashIndex(head) == -1
  {
    if head != "" {
      assert (head + "/" + tail)[1..] == head[1..] + "/" + tail;
      SlashFound(head[1..], tail);
    }
  }

  // ----- which edits reach the role -----

  /** What the role's document is after one call. */
  function Upstream(d: Document, sid: string, oidcArn: string, refs: seq<Subject>): Document {
    if Writes(d, sid, refs) then Built(d, sid, oidcArn, refs) else d
  }

  ghost function RunBinds(d: Document, sid: string, oidcArn: string, calls: seq<seq<Subject>>): Document {
    Run((u: Document, refs: seq<Subject>) => Upstream(u, sid, oidcArn, refs), d, calls)
  }

  /** The calls after the last one without accounts. */
  function SinceRemoval(calls: seq<seq<Subject>>): seq<seq<Subject>> {
    if calls == [] || calls[|calls| - 1] == [] then []
    else SinceRemoval(calls[..|calls| - 1]) + [calls[|calls| - 1]]
  }

  /** The accounts in force: those of the first call since the last removal. */
  function InForce(calls: seq<seq<Subject>>): seq<Subject> {
    if SinceRemoval(calls) == [] then [] else SinceRemoval(calls)[0]
  }

  /** The calls since the last removal are the longest suffix with accounts in every call. */
  lemma {:induction false} SinceRemovalIsSuffix(calls: seq<seq<Subject>>)
    ensures
      var since := SinceRemoval(calls);
      var k := |calls| - |since|;
      && k >= 0 && since == calls[k..] && [] !in since && (k > 0 ==> calls[k - 1] == [])
  {
    if calls != [] && calls[|calls| - 1] != [] {
      SinceRemovalIsSuffix(calls[..|calls| - 1]);
      var k := |calls| - |SinceRemoval(calls)|;
      assert calls[k..] == calls[..|calls| - 1][k..] + [calls[|calls| - 1]];
    }
  }

  /** Over any run of calls on a document without the managed statement, the managed statement
      upstream is the one appended by the first call since the last removal: later account lists do
      not reach the role until a removal does. */
  lemma {:induction false} UpstreamIsInForce(d: Document, sid: string, oidcArn: string, calls: seq<seq<Subject>>)
    requires Labelled(d.statements, sid) == []
    ensures
      var u := RunBinds(d, sid, oidcArn, calls);
      && u.version == d.version && Others(u.statements, sid) == Others(d.statements, sid)
      && Labelled(u.statements, sid) == (if InForce(calls) == [] then [] else [Managed(sid, oidcArn, InForce(calls))])
  {
    if calls != [] {
      var init, refs := calls[..|calls| - 1], calls[|calls| - 1];
      UpstreamIsInForce(d, sid, oidcArn, init);
      SinceRemovalIsSuffix(init);
      var before, stmt := RunBinds(d, sid, oidcArn, init).statements, Managed(sid, oidcArn, refs);
      EditKeepsOthers(before, stmt, refs != []);
      EditLabelled(before, stmt, refs != []);
      FoundIffLabelled(before, sid);
    }
  }

  /** Two lists of accounts name the same subjects. */
  ghost predicate SameSubjects(a: seq<Subject>, b: seq<Subject>) {
    forall s :: s in Formatted(a) <==> s in Formatted(b)
  }

  lemma SpeaksForSubjects(oidcArn: string, refs: seq<Subject>, context: map<string, string>)
    ensures SpeaksFor(oidcArn, refs, context)
        <==> Issuer(oidcArn) in context && context[Issuer(oidcArn)] in Formatted(refs)
  {
    if Issuer(oidcArn) in context { FormattedMembers(refs, context[Issuer(oidcArn)]); }
  }

  ghost predicate SpeakAlike(oidcArn: string, a: seq<Subject>, b: seq<Subject>) {
    forall context {:trigger SpeaksFor(oidcArn, a, context)} ::
      SpeaksFor(oidcArn, a, context) <==> SpeaksFor(oidcArn, b, context)
  }

  /** The requests a list of accounts speaks for determine the subjects it names. */
  lemma RequestsTellSubjects(oidcArn: string, a: seq<Subject>, b: seq<Subject>)
    ensures SameSubjects(a, b) <==> SpeakAlike(oidcArn, a, b)
  {
    if SameSubjects(a, b) {
      forall context ensures SpeaksFor(oidcArn, a, context) <==> SpeaksFor(oidcArn, b, context) {
        SpeaksForSubjects(oidcArn, a, context);
        SpeaksForSubjects(oidcArn, b, context);
      }
    }
    if SpeakAlike(oidcArn, a, b) {
      forall s ensures s in Formatted(a) <==> s in Formatted(b) {
        SpeaksForSubjects(oidcArn, a, map[Issuer(oidcArn) := s]);
        SpeaksForSubjects(oidcArn, b, map[Issuer(oidcArn) := s]);
      }
    }
  }

  lemma AccountOfSubject(a: seq<Subject>, r: Subject)
    requires ColonFree(r.namespace) && forall q :: q in a ==> ColonFree(q.namespace)
    ensures SubjectFormat(r) in Formatted(a) <==> r in a
  {
    FormattedMembers(a, SubjectFormat(r));
    forall q | q in a ensures SubjectFormat(r) == SubjectFormat(q) <==> r == q { SubjectInjective(r, q); }
  }

  /** On colon-free namespaces, two lists name the same subjects exactly when they hold the same accounts. */
  lemma SubjectsAreAccounts(a: seq<Subject>, b: seq<Subject>)
    requires forall r :: r in a || r in b ==> ColonFree(r.namespace)
    ensures SameSubjects(a, b) <==> forall r :: r in a <==> r in b
  {
    forall r | r in a || r in b
      ensures SubjectFormat(r) in Formatted(a) <==> r in a
      ensures SubjectFormat(r) in Formatted(b) <==> r in b
    {
      AccountOfSubject(a, r);
      AccountOfSubject(b, r);
    }
    forall s ensures s in Formatted(a) <==> exists r :: r in a && s == SubjectFormat(r) { FormattedMembers(a, s); }
    forall s ensures s in Formatted(b) <==> exists r :: r in b && s == SubjectFormat(r) { FormattedMembers(b, s); }
  }

  /** After a run, the role admits exactly the accounts of the last call if and only if the call that
      began the current period named the same ones. */
  lemma LastCallTakesEffectExactly(d: Document, sid: string, oidcArn: string, calls: seq<seq<Subject>>)
    requires Labelled(d.statements, sid) == [] && calls != []
    ensures
      var u, last := RunBinds(d, sid, oidcArn, calls), calls[|calls| - 1];
      (forall context {:trigger SpeaksFor(oidcArn, last, context)} ::
         GrantsThrough(u, sid, oidcArn, context) <==> SpeaksFor(oidcArn, last, context))
      <==> SameSubjects(InForce(calls), last)
  {
    var u, last := RunBinds(d, sid, oidcArn, calls), calls[|calls| - 1];
    forall context ensures GrantsThrough(u, sid, oidcArn, context) <==> SpeaksFor(oidcArn, InForce(calls), context) {
      RunGrants(d, sid, oidcArn, calls, context);
    }
    RequestsTellSubjects(oidcArn, InForce(calls), last);
  }

  lemma RunGrants(d: Document, sid: string, oidcArn: string, calls: seq<seq<Subject>>, context: map<string, string>)
    requires Labelled(d.statements, sid) == []
    ensures GrantsThrough(RunBinds(d, sid, oidcArn, calls), sid, oidcArn, context)
      <==> SpeaksFor(oidcArn, InForce(calls), context)
  {
    UpstreamIsInForce(d, sid, oidcArn, calls);
    SelectMembers(RunBinds(d, sid, oidcArn, calls).statements, sid, true);
    ManagedGrants(sid, oidcArn, InForce(calls), context);
    if InForce(calls) != [] { assert Managed(sid, oidcArn, InForce(calls)) in [Managed(sid, oidcArn, InForce(calls))]; }
  }

  lemma FirstOfTwoInForce(x: seq<Subject>, y: seq<Subject>)
    requires x != [] && y != []
    ensures InForce([x, y]) == x
  {
    assert [x, y][..1] == [x] && [x][..0] == [];
    assert SinceRemoval([x]) == [] + [x];
    assert SinceRemoval([x, y]) == [x] + [y];
  }

  lemma SpeaksForOne(oidcArn: string, a: Subject, b: Subject)
    ensures SpeaksFor(oidcArn, [a], map[Issuer(oidcArn) := SubjectFormat(b)]) <==> SubjectFormat(b) == SubjectFormat(a)
  {
    assert a in [a];
  }

  /** The update of the account list is lost: after binding `a` and then `b`, the role admits `a` only. */
  lemma ReplacementIsLost(version: string, sid: string, oidcArn: string, a: Subject, b: Subject)
    requires SubjectFormat(a) != SubjectFormat(b)
    ensures
      var u := RunBinds(Document(version, []), sid, oidcArn, [[a], [b]]);
      && GrantsThrough(u, sid, oidcArn, map[Issuer(oidcArn) := SubjectFormat(a)])
      && !GrantsThrough(u, sid, oidcArn, map[Issuer(oidcArn) := SubjectFormat(b)])
  {
    var d, calls := Document(version, []), [[a], [b]];
    FirstOfTwoInForce([a], [b]);
    SpeaksForOne(oidcArn, a, a);
    SpeaksForOne(oidcArn, a, b);
    RunGrants(d, sid, oidcArn, calls, map[Issuer(oidcArn) := SubjectFormat(a)]);
    RunGrants(d, sid, oidcArn, calls, map[Issuer(oidcArn) := SubjectFormat(b)]);
  }
}

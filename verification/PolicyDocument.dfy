/** Policy documents: normalisation and equality of parsed documents, and the document that the
    spec of an IamPolicy serializes to. */
module PolicyDocument {
  import opened Common

  const DEFAULT_VERSION := "2012-10-17"

  /** Operator, then condition key, then values. An operator is present when its map is. */
  type Conditions = map<string, map<string, seq<string>>>

  datatype Statement = Statement(sid: string, effect: string, action: Json, resource: Json,
                                 conditions: Option<Conditions>)

  /** `statements` is None for Go's nil slice, which `reflect.DeepEqual` tells from an empty one. */
  datatype Document = Document(version: string, statements: Option<seq<Statement>>)

  // ----- normalisation -----

  function Listed(v: Json): Json {
    if v.JStr? then JArr([v]) else v
  }

  function Normalize(st: Statement): Statement {
    st.(action := Listed(st.action), resource := Listed(st.resource))
  }

  function NormalizeAll(sts: seq<Statement>): (r: seq<Statement>)
    ensures |r| == |sts| && forall i :: 0 <= i < |sts| ==> r[i] == Normalize(sts[i])
  {
    seq(|sts|, i requires 0 <= i < |sts| => Normalize(sts[i]))
  }

  /** The document object; `statements` null is the nil slice. */
  class DocumentObject {
    var version: string
    var statements: array?<Statement>

    ghost function Value(): Document
      reads this, statements
    {
      Document(version, if statements == null then None else Some(statements[..]))
    }

    constructor ()
      ensures version == DEFAULT_VERSION && statements == null
    {
      version, statements := DEFAULT_VERSION, null;
    }

    /** `Marshal`, with the JSON encoder as a parameter. */
    method Marshal(encode: Document -> Bytes) returns (text: Bytes)
      ensures text == encode(Value())
    {
      text := encode(Document(version, if statements == null then None else Some(statements[..])));
    }

    /** Normalises the caller's slice in place and keeps it, without a copy. */
    method SetStatements(sts: array?<Statement>)
      modifies this`statements, sts
      ensures statements == sts
      ensures sts != null ==> sts[..] == NormalizeAll(old(sts[..]))
    {
      if sts != null {
        for k := 0 to sts.Length
          invariant forall i :: 0 <= i < k ==> sts[i] == Normalize(old(sts[i]))
          invariant forall i :: k <= i < sts.Length ==> sts[i] == old(sts[i])
        {
          var st := sts[k];
          if st.action.JStr? { st := st.(action := JArr([st.action])); }
          if st.resource.JStr? { st := st.(resource := JArr([st.resource])); }
          sts[k] := st;
        }
      }
      statements := sts;
    }
  }

  function VersionOr(version: Option<string>): string {
    if version.Some? then version.value else DEFAULT_VERSION
  }

  /** `NewDocumentFromString` after JSON decoding: the default version unless the text has one. */
  function Parsed(version: Option<string>, raw: Option<seq<Statement>>): Document {
    Document(VersionOr(version), if raw.Some? then Some(NormalizeAll(raw.value)) else None)
  }

  method NewDocumentFromDecoded(version: Option<string>, raw: array?<Statement>) returns (d: DocumentObject)
    modifies raw
    ensures fresh(d) && d.Value() == Parsed(version, if raw == null then None else Some(old(raw[..])))
  {
    d := new DocumentObject();
    if version.Some? { d.version := version.value; }
    d.SetStatements(raw);
  }

  lemma NormalizeIdempotent(sts: seq<Statement>)
    ensures NormalizeAll(NormalizeAll(sts)) == NormalizeAll(sts)
  {
    assert forall i :: 0 <= i < |sts| ==> Normalize(Normalize(sts[i])) == Normalize(sts[i]);
  }

  /** What an action or resource means: a list of values, a lone string being a list of one. */
  datatype Meaning = Values(items: seq<Json>) | Other(v: Json)

  function MeaningOf(v: Json): Meaning {
    if v.JStr? then Values([v]) else if v.JArr? then Values(v.items) else Other(v)
  }

  predicate SameMeaning(a: Statement, b: Statement) {
    && a.sid == b.sid && a.effect == b.effect && a.conditions == b.conditions
    && MeaningOf(a.action) == MeaningOf(b.action) && MeaningOf(a.resource) == MeaningOf(b.resource)
  }

  lemma ListedMeaning(a: Json, b: Json)
    ensures Listed(a) == Listed(b) <==> MeaningOf(a) == MeaningOf(b)
  {
  }

  /** Two parsed documents are deeply equal exactly when their versions agree, both or neither have
      a statement list, and the statements mean the same one by one. */
  lemma ParsedEquality(v: Option<string>, a: Option<seq<Statement>>, w: Option<string>, b: Option<seq<Statement>>)
    ensures Parsed(v, a) == Parsed(w, b) <==>
      && VersionOr(v) == VersionOr(w)
      && (a.Some? <==> b.Some?)
      && (a.Some? ==> |a.value| == |b.value| && forall i :: 0 <= i < |a.value| ==> SameMeaning(a.value[i], b.value[i]))
  {
    if a.Some? && b.Some? && |a.value| == |b.value| { NormalEquality(a.value, b.value); }
  }

  lemma NormalEquality(a: seq<Statement>, b: seq<Statement>)
    requires |a| == |b|
    ensures NormalizeAll(a) == NormalizeAll(b) <==> forall i :: 0 <= i < |a| ==> SameMeaning(a[i], b[i])
  {
    var x, y := NormalizeAll(a), NormalizeAll(b);
    forall i | 0 <= i < |a| ensures x[i] == y[i] <==> SameMeaning(a[i], b[i]) {
      ListedMeaning(a[i].action, b[i].action);
      ListedMeaning(a[i].resource, b[i].resource);
    }
    if forall i :: 0 <= i < |a| ==> SameMeaning(a[i], b[i]) {
      assert forall i :: 0 <= i < |a| ==> x[i] == y[i];
    }
  }

  // ----- serialization of a spec -----

  datatype Condition = Condition(key: string, values: seq<string>)

  /** A missing action list is Go's nil slice. */
  datatype SpecStatement = SpecStatement(sid: string, effect: string, actions: Option<seq<string>>,
                                         resources: Option<seq<string>>,
                                         conditions: Option<map<string, seq<Condition>>>)

  function StringsJson(l: Option<seq<string>>): Json {
    if l.None? then JNull else JArr(seq(|l.value|, i requires 0 <= i < |l.value| => JStr(l.value[i])))
  }

  function ToMap(cs: seq<Condition>): map<string, seq<string>> {
    if cs == [] then map[] else ToMap(cs[..|cs| - 1])[cs[|cs| - 1].key := cs[|cs| - 1].values]
  }

  method ToMapLoop(cs: seq<Condition>) returns (m: map<string, seq<string>>)
    ensures m == ToMap(cs)
  {
    m := map[];
    for i := 0 to |cs|
      invariant m == ToMap(cs[..i])
    {
      assert cs[..i + 1][..i] == cs[..i];
      m := m[cs[i].key := cs[i].values];
    }
    assert cs[..|cs|] == cs;
  }

  /** The JSON text drops an operator whose map is empty. */
  function ConditionTree(cs: map<string, seq<Condition>>): Conditions {
    map op | op in cs && cs[op] != [] :: ToMap(cs[op])
  }

  function StatementTree(st: SpecStatement): Statement {
    Statement(st.sid, st.effect, StringsJson(st.actions), StringsJson(st.resources),
              if st.conditions.None? then None else Some(ConditionTree(st.conditions.value)))
  }

  function Serialize(spec: seq<SpecStatement>): Document {
    Document(DEFAULT_VERSION, Some(seq(|spec|, i requires 0 <= i < |spec| => StatementTree(spec[i]))))
  }

  // ----- what the serialized document is -----

  /** A list of strings as a JSON value: null for the nil slice, otherwise the strings in order. */
  predicate IsStrings(l: Option<seq<string>>, v: Json) {
    if l.None? then v == JNull
    else v.JArr? && |v.items| == |l.value| && forall j :: 0 <= j < |v.items| ==> v.items[j] == JStr(l.value[j])
  }

  /** The map has exactly the keys of the conditions, each with the values of its last occurrence. */
  ghost predicate IsLastValues(cs: seq<Condition>, m: map<string, seq<string>>) {
    && (forall k :: k in m ==> exists i :: 0 <= i < |cs| && cs[i].key == k)
    && (forall i :: 0 <= i < |cs| && (forall j :: i < j < |cs| ==> cs[j].key != cs[i].key) ==>
          cs[i].key in m && m[cs[i].key] == cs[i].values)
  }

  /** Exactly the operators with conditions are present. */
  ghost predicate IsConditions(cs: map<string, seq<Condition>>, c: Conditions) {
    && (forall op :: op in c <==> op in cs && |cs[op]| > 0)
    && (forall op :: op in c ==> IsLastValues(cs[op], c[op]))
  }

  ghost predicate IsStatement(st: SpecStatement, t: Statement) {
    && t.sid == st.sid && t.effect == st.effect
    && IsStrings(st.actions, t.action) && IsStrings(st.resources, t.resource)
    && (t.conditions.Some? <==> st.conditions.Some?)
    && (st.conditions.Some? ==> IsConditions(st.conditions.value, t.conditions.value))
  }

  ghost predicate IsSerialized(spec: seq<SpecStatement>, d: Document) {
    && d.version == "2012-10-17" && d.statements.Some? && |d.statements.value| == |spec|
    && forall i :: 0 <= i < |spec| ==> IsStatement(spec[i], d.statements.value[i])
  }

  lemma StringsAre(l: Option<seq<string>>, v: Json)
    ensures IsStrings(l, v) <==> v == StringsJson(l)
  {
    if l.Some? && IsStrings(l, v) { assert v.items == StringsJson(l).items; }
  }

  lemma {:induction false} LastOccurrence(cs: seq<Condition>, k: string) returns (i: int)
    requires exists i :: 0 <= i < |cs| && cs[i].key == k
    ensures 0 <= i < |cs| && cs[i].key == k && forall j :: i < j < |cs| ==> cs[j].key != k
  {
    i := |cs| - 1;
    while cs[i].key != k
      invariant 0 <= i < |cs| && forall j :: i < j < |cs| ==> cs[j].key != k
      invariant exists m :: 0 <= m <= i && cs[m].key == k
      decreases i
    {
      i := i - 1;
    }
  }

  lemma LastValuesAre(cs: seq<Condition>, m: map<string, seq<string>>)
    ensures IsLastValues(cs, m) <==> m == ToMap(cs)
  {
    forall i | 0 <= i < |cs| && (forall j :: i < j < |cs| ==> cs[j].key != cs[i].key)
      ensures cs[i].key in ToMap(cs) && ToMap(cs)[cs[i].key] == cs[i].values
    {
      LastOccurrenceWins(cs, i);
    }
    forall k | k in ToMap(cs) ensures exists i :: 0 <= i < |cs| && cs[i].key == k { MappedKeysOccur(cs, k); }
    assert IsLastValues(cs, ToMap(cs));
    if IsLastValues(cs, m) {
      forall k | k in m ensures k in ToMap(cs) && ToMap(cs)[k] == m[k] { var i := LastOccurrence(cs, k); }
      forall k | k in ToMap(cs) ensures k in m { var i := LastOccurrence(cs, k); }
    }
  }

  lemma TreeIsConditions(cs: map<string, seq<Condition>>)
    ensures IsConditions(cs, ConditionTree(cs))
  {
    forall op | op in ConditionTree(cs) ensures IsLastValues(cs[op], ConditionTree(cs)[op]) {
      LastValuesAre(cs[op], ConditionTree(cs)[op]);
    }
  }

  lemma ConditionIs(cs: map<string, seq<Condition>>, c: Conditions, op: string)
    requires IsConditions(cs, c)
    ensures op in c <==> op in cs && cs[op] != []
    ensures op in c ==> c[op] == ToMap(cs[op])
  {
    if op in c { LastValuesAre(cs[op], c[op]); }
  }

  lemma ConditionsAre(cs: map<string, seq<Condition>>, c: Conditions)
    ensures IsConditions(cs, c) <==> c == ConditionTree(cs)
  {
    TreeIsConditions(cs);
    if IsConditions(cs, c) { ConditionsAreTree(cs, c); }
  }

  lemma ConditionsAreTree(cs: map<string, seq<Condition>>, c: Conditions)
    requires IsConditions(cs, c)
    ensures c == ConditionTree(cs)
  {
    forall op ensures op in c <==> op in ConditionTree(cs) { ConditionIs(cs, c, op); }
    forall op | op in c ensures c[op] == ConditionTree(cs)[op] { ConditionIs(cs, c, op); }
  }

  lemma StatementIs(st: SpecStatement, t: Statement)
    ensures IsStatement(st, t) <==> t == StatementTree(st)
  {
    StringsAre(st.actions, t.action);
    StringsAre(st.resources, t.resource);
    if st.conditions.Some? && t.conditions.Some? { ConditionsAre(st.conditions.value, t.conditions.value); }
  }

  /** The serialized document, field by field: it is the one document of that description. */
  lemma SerializedIs(spec: seq<SpecStatement>, d: Document)
    ensures IsSerialized(spec, d) <==> d == Serialize(spec)
  {
    if d.statements.Some? && |d.statements.value| == |spec| {
      forall i | 0 <= i < |spec|
        ensures IsStatement(spec[i], d.statements.value[i]) <==> d.statements.value[i] == StatementTree(spec[i])
      {
        StatementIs(spec[i], d.statements.value[i]);
      }
      if IsSerialized(spec, d) { assert d.statements.value == Serialize(spec).statements.value; }
    }
  }

  method ConditionTreeLoop(cs: map<string, seq<Condition>>) returns (r: Conditions)
    ensures r == ConditionTree(cs)
  {
    r := map[];
    var rest := cs.Keys;
    while rest != {}
      invariant rest <= cs.Keys
      invariant r == map op | op in cs.Keys - rest && cs[op] != [] :: ToMap(cs[op])
    {
      var op :| op in rest;
      rest := rest - {op};
      var m := ToMapLoop(cs[op]);
      if cs[op] != [] { r := r[op := m]; }
    }
    assert cs.Keys - rest == cs.Keys;
  }

  method SerializeDocument(spec: seq<SpecStatement>) returns (d: DocumentObject)
    ensures fresh(d) && d.Value() == Serialize(spec) && IsSerialized(spec, d.Value())
  {
    SerializedIs(spec, Serialize(spec));
    d := new DocumentObject();
    var sts: seq<Statement> := [];
    for i := 0 to |spec|
      invariant d.version == DEFAULT_VERSION
      invariant |sts| == i && forall j :: 0 <= j < i ==> sts[j] == StatementTree(spec[j])
    {
      var conditions: Option<Conditions> := None;
      if spec[i].conditions.Some? {
        var tree := ConditionTreeLoop(spec[i].conditions.value);
        conditions := Some(tree);
      }
      var actions, resources := StringsJson(spec[i].actions), StringsJson(spec[i].resources);
      sts := sts + [Statement(spec[i].sid, spec[i].effect, actions, resources, conditions)];
    }
    var a := new Statement[|sts|](i requires 0 <= i < |sts| => sts[i]);
    assert a[..] == sts == Serialize(spec).statements.value;
    SerializedIsNormal(spec);
    d.SetStatements(a);
    assert d.statements[..] == Serialize(spec).statements.value;
  }

  /** Lists are never lone strings, so `SetStatements` leaves a serialized spec alone. */
  lemma SerializedIsNormal(spec: seq<SpecStatement>)
    ensures NormalizeAll(Serialize(spec).statements.value) == Serialize(spec).statements.value
  {
  }

  predicate DistinctKeys(cs: seq<Condition>) {
    forall i, j :: 0 <= i < j < |cs| ==> cs[i].key != cs[j].key
  }

  /** The value of a key is that of its last occurrence. */
  lemma {:induction false} LastOccurrenceWins(cs: seq<Condition>, i: int)
    requires 0 <= i < |cs| && forall j :: i < j < |cs| ==> cs[j].key != cs[i].key
    ensures cs[i].key in ToMap(cs) && ToMap(cs)[cs[i].key] == cs[i].values
  {
    if i < |cs| - 1 { LastOccurrenceWins(cs[..|cs| - 1], i); }
  }

  lemma {:induction false} MappedKeysOccur(cs: seq<Condition>, k: string)
    requires k in ToMap(cs)
    ensures exists i :: 0 <= i < |cs| && cs[i].key == k
  {
    if cs[|cs| - 1].key != k {
      MappedKeysOccur(cs[..|cs| - 1], k);
      var i :| 0 <= i < |cs| - 1 && cs[..|cs| - 1][i].key == k;
      assert cs[i].key == k;
    }
  }

  lemma MapMembers(cs: seq<Condition>, k: string, v: seq<string>)
    requires DistinctKeys(cs)
    ensures k in ToMap(cs) && ToMap(cs)[k] == v <==> Condition(k, v) in cs
  {
    if k in ToMap(cs) {
      MappedKeysOccur(cs, k);
      var i :| 0 <= i < |cs| && cs[i].key == k;
      LastOccurrenceWins(cs, i);
      assert cs[i] in cs;
    }
    if Condition(k, v) in cs {
      var i :| 0 <= i < |cs| && cs[i] == Condition(k, v);
      LastOccurrenceWins(cs, i);
    }
  }

  /** Reordering conditions with distinct keys changes nothing. */
  lemma PermutedConditions(a: seq<Condition>, b: seq<Condition>)
    requires DistinctKeys(a) && DistinctKeys(b) && multiset(a) == multiset(b)
    ensures ToMap(a) == ToMap(b)
  {
    ReorderedKeys(a, b);
    ReorderedKeys(b, a);
  }

  lemma ReorderedKeys(a: seq<Condition>, b: seq<Condition>)
    requires DistinctKeys(a) && DistinctKeys(b) && multiset(a) == multiset(b)
    ensures forall k :: k in ToMap(a) ==> k in ToMap(b) && ToMap(b)[k] == ToMap(a)[k]
  {
    forall k | k in ToMap(a) ensures k in ToMap(b) && ToMap(b)[k] == ToMap(a)[k] {
      var c := Condition(k, ToMap(a)[k]);
      MapMembers(a, k, c.values);
      assert c in multiset(b);
      MapMembers(b, k, c.values);
    }
  }

  /** Two statements that differ at most in the order of conditions inside each operator. */
  predicate Reordered(a: SpecStatement, b: SpecStatement) {
    && a.(conditions := None) == b.(conditions := None)
    && (a.conditions.Some? <==> b.conditions.Some?)
    && (a.conditions.Some? ==>
          && a.conditions.value.Keys == b.conditions.value.Keys
          && forall op :: op in a.conditions.value ==>
               SameConditions(a.conditions.value[op], b.conditions.value[op]))
  }

  predicate SameConditions(a: seq<Condition>, b: seq<Condition>) {
    DistinctKeys(a) && DistinctKeys(b) && multiset(a) == multiset(b)
  }

  lemma ReorderedStatement(a: SpecStatement, b: SpecStatement)
    requires Reordered(a, b)
    ensures StatementTree(a) == StatementTree(b)
  {
    if a.conditions.Some? {
      var x, y := a.conditions.value, b.conditions.value;
      forall op | op in x ensures ToMap(x[op]) == ToMap(y[op]) && (x[op] == [] <==> y[op] == []) {
        assert SameConditions(x[op], y[op]);
        PermutedConditions(x[op], y[op]);
        assert |multiset(x[op])| == |x[op]| && |multiset(y[op])| == |y[op]|;
      }
      assert ConditionTree(x) == ConditionTree(y);
    }
  }

  /** Serialization keeps the number and the order of the statements and does not see the order of
      conditions inside an operator. */
  lemma ReorderedSpecSerializesEqually(a: seq<SpecStatement>, b: seq<SpecStatement>)
    requires |a| == |b| && forall i :: 0 <= i < |a| ==> Reordered(a[i], b[i])
    ensures Serialize(a) == Serialize(b)
    ensures |Serialize(a).statements.value| == |a|
    ensures forall i :: 0 <= i < |a| ==> Serialize(a).statements.value[i] == StatementTree(a[i])
  {
    forall i | 0 <= i < |a| ensures StatementTree(a[i]) == StatementTree(b[i]) {
      ReorderedStatement(a[i], b[i]);
    }
    assert Serialize(a).statements.value == Serialize(b).statements.value;
  }
}

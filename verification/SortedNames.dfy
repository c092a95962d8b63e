/** `sets.String.List()`: the names of a set in increasing order. */
module SortedNames {

  /** Go's string order: lexicographic. */
  predicate Less(a: string, b: string) {
    if b == "" then false
    else if a == "" then true
    else if a[0] != b[0] then a[0] < b[0]
    else Less(a[1..], b[1..])
  }

  lemma {:induction false} LessTotal(a: string, b: string)
    ensures a == b || Less(a, b) || Less(b, a)
    ensures !(Less(a, b) && Less(b, a)) && !Less(a, a)
  {
    if a != "" && b != "" {
      LessTotal(a[1..], b[1..]);
      assert a == [a[0]] + a[1..] && b == [b[0]] + b[1..];
    }
    if a != "" { LessTotal(a[1..], a[1..]); }
  }

  lemma {:induction false} LessTransitive(a: string, b: string, c: string)
    requires Less(a, b) && Less(b, c)
    ensures Less(a, c)
  {
    if a != "" && a[0] == b[0] == c[0] { LessTransitive(a[1..], b[1..], c[1..]); }
  }

  /** Strictly increasing, so without duplicates. */
  predicate Sorted(l: seq<string>) {
    forall i, j :: 0 <= i < j < |l| ==> Less(l[i], l[j])
  }

  ghost predicate ListOf(l: seq<string>, s: set<string>) {
    Sorted(l) && forall x :: x in l <==> x in s
  }

  function Insert(x: string, l: seq<string>): seq<string> {
    if l == [] then [x] else if Less(x, l[0]) then [x] + l else [l[0]] + Insert(x, l[1..])
  }

  lemma {:induction false} InsertKeepsSorted(x: string, l: seq<string>)
    requires Sorted(l) && x !in l
    ensures Sorted(Insert(x, l)) && forall y :: y in Insert(x, l) <==> y == x || y in l
  {
    if l != [] {
      LessTotal(x, l[0]);
      assert l == [l[0]] + l[1..];
      if Less(x, l[0]) {
        forall j | 0 <= j < |l| ensures Less(x, l[j]) {
          if j > 0 { LessTransitive(x, l[0], l[j]); }
        }
      } else {
        InsertKeepsSorted(x, l[1..]);
        var r := Insert(x, l[1..]);
        forall j | 0 <= j < |r| ensures Less(l[0], r[j]) { assert r[j] in r; }
      }
    }
  }

  /** The sorted list of a finite set. */
  ghost function SortedList(s: set<string>): (l: seq<string>)
    ensures ListOf(l, s)
  {
    if s == {} then []
    else
      var x :| x in s;
      InsertKeepsSorted(x, SortedList(s - {x}));
      Insert(x, SortedList(s - {x}))
  }

  lemma HeadIsNew(l: seq<string>)
    requires Sorted(l) && l != []
    ensures l[0] !in l[1..]
  {
    LessTotal(l[0], l[0]);
    assert forall i :: 1 <= i < |l| ==> Less(l[0], l[i]);
  }

  /** A set has one sorted list. */
  lemma {:induction false} SortedListUnique(l: seq<string>, m: seq<string>)
    requires Sorted(l) && Sorted(m) && forall x :: x in l <==> x in m
    ensures l == m
  {
    assert (l != [] ==> l[0] in l) && (m != [] ==> m[0] in m);
    if l != [] && m != [] {
      assert l[0] in m && m[0] in l;
      var i :| 0 <= i < |m| && m[i] == l[0];
      var j :| 0 <= j < |l| && l[j] == m[0];
      LessTotal(l[0], m[0]);
      assert l == [l[0]] + l[1..] && m == [m[0]] + m[1..];
      assert l[0] == m[0];
      HeadIsNew(l);
      HeadIsNew(m);
      assert forall x :: x in l <==> x == l[0] || x in l[1..];
      assert forall x :: x in m <==> x == m[0] || x in m[1..];
      SortedListUnique(l[1..], m[1..]);
    }
  }

  /** Insertion into a growing sorted slice. */
  method List(s: set<string>) returns (l: seq<string>)
    ensures l == SortedList(s)
  {
    l := [];
    var rest := s;
    while rest != {}
      invariant rest <= s && ListOf(l, s - rest)
    {
      var x :| x in rest;
      InsertKeepsSorted(x, l);
      l := Insert(x, l);
      rest := rest - {x};
    }
    assert s - rest == s;
    SortedListUnique(l, SortedList(s));
  }
}

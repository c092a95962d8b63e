/** `sidLabel`: the statement label made from a namespace and a name, and how far it determines them. */
module SidLabel {

  const LABEL_HEAD := "Allow Service Account"
  const LABEL_WORDS := ["Allow", "Service", "Account"]

  function Upper(c: char): char {
    if 'a' <= c <= 'z' then 'A' + (c - 'a') else c
  }

  function Lower(c: char): char {
    if 'A' <= c <= 'Z' then 'a' + (c - 'A') else c
  }

  function Spaced(s: string): string {
    seq(|s|, i requires 0 <= i < |s| => if s[i] == '-' then ' ' else s[i])
  }

  /** Title case word by word, words being what spaces separate. */
  function TitleFrom(atStart: bool, s: string): string
    decreases |s|
  {
    if s == "" then ""
    else [if atStart then Upper(s[0]) else Lower(s[0])] + TitleFrom(s[0] == ' ', s[1..])
  }

  function Squeezed(s: string): string {
    if s == "" then "" else (if s[0] == ' ' then "" else [s[0]]) + Squeezed(s[1..])
  }

  function Labelled(s: string): string {
    Squeezed(TitleFrom(true, s))
  }

  function LabelWith(head: string, name: string, namespace: string): string {
    Labelled(Spaced(head + " " + namespace + " " + name))
  }

  function SidLabel(name: string, namespace: string): string {
    LabelWith(LABEL_HEAD, name, namespace)
  }

  // ----- names made of segments -----

  predicate LowerOrDigit(c: char) { 'a' <= c <= 'z' || '0' <= c <= '9' }

  predicate LowerTail(w: string) {
    forall i {:trigger LowerOrDigit(w[i])} :: 0 <= i < |w| ==> LowerOrDigit(w[i])
  }

  /** A letter, then lowercase letters or digits. */
  predicate Word(w: string) {
    w != "" && 'a' <= Lower(w[0]) <= 'z' && LowerTail(w[1..])
  }

  predicate Segment(w: string) { Word(w) && 'a' <= w[0] <= 'z' }

  predicate Segments(l: seq<string>) { forall i {:trigger Segment(l[i])} :: 0 <= i < |l| ==> Segment(l[i]) }

  function Join(l: seq<string>, sep: char): string {
    if l == [] then "" else if |l| == 1 then l[0] else l[0] + [sep] + Join(l[1..], sep)
  }

  predicate Words(l: seq<string>) { forall i {:trigger Word(l[i])} :: 0 <= i < |l| ==> Word(l[i]) }

  function Capitalized(w: string): string {
    if w == "" then "" else [Upper(w[0])] + w[1..]
  }

  function Camel(l: seq<string>): string {
    if l == [] then "" else Capitalized(l[0]) + Camel(l[1..])
  }

  lemma {:induction false} SpacedJoin(l: seq<string>)
    requires Words(l)
    ensures Spaced(Join(l, '-')) == Join(l, ' ')
  {
    if |l| > 1 {
      SpacedWord(l[0]);
      SpacedJoin(l[1..]);
      SpacedConcat(l[0] + "-", Join(l[1..], '-'));
      SpacedConcat(l[0], "-");
    } else if |l| == 1 {
      SpacedWord(l[0]);
    }
  }

  lemma SpacedWord(w: string)
    requires Word(w)
    ensures Spaced(w) == w
  {
    forall i | 0 <= i < |w| ensures w[i] != '-' {
      if i > 0 { assert LowerOrDigit(w[1..][i - 1]); }
    }
  }

  lemma SpacedConcat(a: string, b: string)
    ensures Spaced(a + b) == Spaced(a) + Spaced(b)
  {
  }

  lemma TailOfTail(w: string)
    requires LowerTail(w) && w != ""
    ensures LowerOrDigit(w[0]) && LowerTail(w[1..])
  {
    forall i | 0 <= i < |w| - 1 ensures LowerOrDigit(w[1..][i]) { assert LowerOrDigit(w[i + 1]); }
  }

  /** Title case and the removal of spaces in one go. */
  function TitleSqueezed(atStart: bool, s: string): string
    decreases |s|
  {
    if s == "" then ""
    else
      var head := if s[0] == ' ' then "" else [if atStart then Upper(s[0]) else Lower(s[0])];
      head + TitleSqueezed(s[0] == ' ', s[1..])
  }

  lemma {:induction false} InOneGo(atStart: bool, s: string)
    ensures Squeezed(TitleFrom(atStart, s)) == TitleSqueezed(atStart, s)
    decreases |s|
  {
    if s != "" {
      InOneGo(s[0] == ' ', s[1..]);
      assert TitleFrom(atStart, s)[1..] == TitleFrom(s[0] == ' ', s[1..]);
    }
  }

  lemma TitleStep(atStart: bool, c: char, s: string)
    requires c != ' '
    ensures TitleSqueezed(atStart, [c] + s) == [if atStart then Upper(c) else Lower(c)] + TitleSqueezed(false, s)
  {
    assert ([c] + s)[1..] == s;
  }

  lemma SpaceStep(atStart: bool, s: string)
    ensures TitleSqueezed(atStart, " " + s) == TitleSqueezed(true, s)
  {
    assert (" " + s)[1..] == s;
  }

  /** A word keeps its tail under title case. */
  lemma {:induction false} TitleTail(w: string, rest: string)
    requires LowerTail(w)
    ensures TitleSqueezed(false, w + rest) == w + TitleSqueezed(false, rest)
  {
    if w == "" {
      assert w + rest == rest;
    } else {
      TailOfTail(w);
      TitleTail(w[1..], rest);
      TitleStep(false, w[0], w[1..] + rest);
      assert w + rest == [w[0]] + (w[1..] + rest);
      assert w + TitleSqueezed(false, rest) == [w[0]] + (w[1..] + TitleSqueezed(false, rest));
    }
  }

  lemma TitleHeadTail(c: char, tail: string, rest: string)
    requires c != ' ' && LowerTail(tail)
    ensures TitleSqueezed(true, [c] + tail + rest) == [Upper(c)] + tail + TitleSqueezed(false, rest)
  {
    TitleTail(tail, rest);
    TitleStep(true, c, tail + rest);
    assert [c] + tail + rest == [c] + (tail + rest);
    assert [Upper(c)] + tail + TitleSqueezed(false, rest) == [Upper(c)] + (tail + TitleSqueezed(false, rest));
  }

  lemma TitleHead(w: string, rest: string)
    requires Word(w)
    ensures TitleSqueezed(true, w + rest) == Capitalized(w) + TitleSqueezed(false, rest)
  {
    TitleHeadTail(w[0], w[1..], rest);
    assert [w[0]] + w[1..] == w;
  }

  lemma TitleWord(w: string, rest: string)
    requires Word(w)
    ensures Labelled(w + " " + rest) == Capitalized(w) + Labelled(rest)
    ensures Labelled(w) == Capitalized(w)
  {
    InOneGo(true, w + " " + rest);
    InOneGo(true, rest);
    InOneGo(true, w);
    TitleHead(w, " " + rest);
    TitleHead(w, "");
    SpaceStep(false, rest);
    assert w + " " + rest == w + (" " + rest) && w + "" == w;
  }

  lemma TitleSpace(rest: string)
    ensures Labelled(" " + rest) == Labelled(rest)
  {
    InOneGo(true, " " + rest);
    InOneGo(true, rest);
    SpaceStep(true, rest);
  }

  lemma TitleJoinStep(w: string, x: string, camel: string, r: string)
    requires Word(w) && Labelled(x) == camel + r
    ensures Labelled(w + " " + x) == Capitalized(w) + camel + r
  {
    TitleWord(w, x);
    assert Capitalized(w) + (camel + r) == Capitalized(w) + camel + r;
  }

  lemma {:induction false} TitleJoin(l: seq<string>, rest: string)
    requires Words(l)
    ensures Labelled(Join(l, ' ') + " " + rest) == Camel(l) + Labelled(rest)
  {
    if l == [] {
      assert "" + " " + rest == " " + rest;
      TitleSpace(rest);
    } else if |l| == 1 {
      TitleWord(l[0], rest);
      CamelOne(l[0]);
      assert l == [l[0]];
    } else {
      var x := Join(l[1..], ' ') + " " + rest;
      TitleJoin(l[1..], rest);
      TitleJoinStep(l[0], x, Camel(l[1..]), Labelled(rest));
      JoinStep(l, rest);
    }
  }

  lemma CamelOne(w: string)
    ensures Camel([w]) == Capitalized(w)
  {
    assert [w][1..] == [];
  }

  lemma JoinStep(l: seq<string>, rest: string)
    requires |l| > 1
    ensures Join(l, ' ') + " " + rest == l[0] + " " + (Join(l[1..], ' ') + " " + rest)
  {
  }

  lemma {:induction false} TitleLast(l: seq<string>)
    requires Words(l)
    ensures Labelled(Join(l, ' ')) == Camel(l)
  {
    if |l| == 1 {
      TitleWord(l[0], "");
      assert Camel(l[1..]) == "";
    } else if |l| > 1 {
      TitleLast(l[1..]);
      TitleWord(l[0], Join(l[1..], ' '));
      assert Join(l, ' ') == l[0] + " " + Join(l[1..], ' ');
    }
  }

  lemma SpacedLabel(head: string, namespace: string, name: string)
    ensures Spaced(head + " " + namespace + " " + name) == Spaced(head) + " " + (Spaced(namespace) + " " + Spaced(name))
  {
    SpacedConcat(head + " " + namespace + " ", name);
    SpacedConcat(head + " " + namespace, " ");
    SpacedConcat(head + " ", namespace);
    SpacedConcat(head, " ");
  }

  /** A label is its capitalized words one after the other. */
  lemma LabelIsCamel(head: seq<string>, ns: seq<string>, name: seq<string>)
    requires Words(head) && Words(ns) && Words(name)
    ensures LabelWith(Join(head, '-'), Join(name, '-'), Join(ns, '-')) == Camel(head + (ns + name))
  {
    SpacedJoin(head);
    SpacedJoin(ns);
    SpacedJoin(name);
    SpacedLabel(Join(head, '-'), Join(ns, '-'), Join(name, '-'));
    TitleJoin(head, Join(ns, ' ') + " " + Join(name, ' '));
    TitleJoin(ns, Join(name, ' '));
    TitleLast(name);
    CamelConcat(head, ns + name);
    CamelConcat(ns, name);
  }

  lemma {:induction false} CamelConcat(a: seq<string>, b: seq<string>)
    ensures Camel(a + b) == Camel(a) + Camel(b)
  {
    if a == [] {
      assert a + b == b;
    } else {
      assert (a + b)[1..] == a[1..] + b;
      CamelConcat(a[1..], b);
    }
  }

  // ----- splitting at capitals -----

  predicate Capital(c: char) { 'A' <= c <= 'Z' }

  /** A new word starts at every capital, which is lowered. */
  function Split(s: string): seq<string> {
    if s == "" then []
    else
      var words, c := Split(s[..|s| - 1]), s[|s| - 1];
      if Capital(c) || words == [] then words + [[Lower(c)]]
      else words[..|words| - 1] + [words[|words| - 1] + [c]]
  }

  function Lowered(w: string): string {
    if w == "" then "" else [Lower(w[0])] + w[1..]
  }

  function AllLowered(l: seq<string>): seq<string> {
    seq(|l|, i requires 0 <= i < |l| => Lowered(l[i]))
  }

  lemma SplitStep(s: string, c: char)
    ensures
      var words := Split(s);
      Split(s + [c]) ==
        if Capital(c) || words == [] then words + [[Lower(c)]]
        else words[..|words| - 1] + [words[|words| - 1] + [c]]
  {
    assert (s + [c])[..|s|] == s;
  }

  lemma CapitalLowers(c: char)
    requires 'a' <= Lower(c) <= 'z'
    ensures Capital(Upper(c)) && Lower(Upper(c)) == Lower(c)
  {
  }

  function Extended(words: seq<string>, tail: string): seq<string>
    requires words != []
  {
    words[..|words| - 1] + [words[|words| - 1] + tail]
  }

  /** Lowercase letters and digits extend the last word. */
  lemma {:induction false} SplitTail(s: string, tail: string)
    requires Split(s) != [] && LowerTail(tail)
    ensures Split(s + tail) == Extended(Split(s), tail)
    decreases |tail|
  {
    if tail == "" {
      assert s + tail == s;
      ExtendedByNothing(Split(s));
    } else {
      var c := tail[0];
      TailOfTail(tail);
      SplitStep(s, c);
      assert s + tail == (s + [c]) + tail[1..] && tail == [c] + tail[1..];
      SplitTail(s + [c], tail[1..]);
      ExtendedTwice(Split(s), c, tail[1..]);
    }
  }

  lemma ExtendedByNothing(words: seq<string>)
    requires words != []
    ensures Extended(words, "") == words
  {
    assert words[|words| - 1] + "" == words[|words| - 1];
  }

  lemma ExtendedTwice(words: seq<string>, c: char, tail: string)
    requires words != []
    ensures Extended(Extended(words, [c]), tail) == Extended(words, [c] + tail)
  {
    var last := words[|words| - 1];
    assert last + [c] + tail == last + ([c] + tail);
  }

  lemma SplitCapital(s: string, u: char, tail: string)
    requires Capital(u) && LowerTail(tail)
    ensures Split(s + ([u] + tail)) == Split(s) + [[Lower(u)] + tail]
  {
    SplitStep(s, u);
    SplitTail(s + [u], tail);
    ExtendLast(Split(s), [Lower(u)], tail);
    assert s + ([u] + tail) == (s + [u]) + tail;
  }

  lemma SplitWord(s: string, w: string)
    requires Word(w)
    ensures Split(s + Capitalized(w)) == Split(s) + [Lowered(w)]
  {
    CapitalLowers(w[0]);
    SplitCapital(s, Upper(w[0]), w[1..]);
  }

  lemma ExtendLast(words: seq<string>, last: string, tail: string)
    ensures Extended(words + [last], tail) == words + [last + tail]
  {
  }

  lemma CamelSnoc(init: seq<string>, last: string)
    ensures Camel(init + [last]) == Camel(init) + Capitalized(last)
  {
    CamelConcat(init, [last]);
    CamelOne(last);
  }

  lemma LoweredSnoc(init: seq<string>, last: string)
    ensures AllLowered(init + [last]) == AllLowered(init) + [Lowered(last)]
  {
  }

  lemma SplitCamelStep(init: seq<string>, last: string)
    requires Word(last) && Split(Camel(init)) == AllLowered(init)
    ensures Split(Camel(init + [last])) == AllLowered(init + [last])
  {
    CamelSnoc(init, last);
    SplitWord(Camel(init), last);
    LoweredSnoc(init, last);
  }

  /** Induction on lists that grow at the end. */
  lemma {:induction false} OneByOne(p: seq<string> -> bool, q: string -> bool, l: seq<string>)
    requires (forall w :: w in l ==> q(w)) && p([])
    requires forall init, last {:trigger p(init + [last])} :: p(init) && q(last) ==> p(init + [last])
    ensures p(l)
  {
    if l != [] {
      var init, last := l[..|l| - 1], l[|l| - 1];
      OneByOne(p, q, init);
      assert l == init + [last] && p(init + [last]);
    }
  }

  lemma SplitCamel(l: seq<string>)
    requires Words(l)
    ensures Split(Camel(l)) == AllLowered(l)
  {
    var p, q := (x: seq<string>) => Split(Camel(x)) == AllLowered(x), (w: string) => Word(w);
    forall init, last | p(init) && q(last) ensures p(init + [last]) { SplitCamelStep(init, last); }
    forall w | w in l ensures q(w) {
      var i :| 0 <= i < |l| && l[i] == w;
      assert Word(l[i]);
    }
    OneByOne(p, q, l);
  }

  lemma SegmentsAreWords(l: seq<string>)
    requires Segments(l)
    ensures Words(l)
  {
    forall i | 0 <= i < |l| ensures Word(l[i]) { assert Segment(l[i]); }
  }

  /** Splitting a label at its capitals gives back its words. */
  lemma LabelSplits(head: seq<string>, ns: seq<string>, name: seq<string>)
    requires Words(head) && Segments(ns) && Segments(name)
    ensures Split(LabelWith(Join(head, '-'), Join(name, '-'), Join(ns, '-'))) == AllLowered(head) + (ns + name)
  {
    SegmentsAreWords(ns);
    SegmentsAreWords(name);
    LabelIsCamel(head, ns, name);
    SplitCamel(head + (ns + name));
    SegmentsLowered(ns + name);
    LoweredConcat(head, ns + name);
  }

  lemma LoweredConcat(a: seq<string>, b: seq<string>)
    ensures AllLowered(a + b) == AllLowered(a) + AllLowered(b)
  {
  }

  lemma SegmentsLowered(l: seq<string>)
    requires Segments(l)
    ensures AllLowered(l) == l
  {
    forall i | 0 <= i < |l| ensures Lowered(l[i]) == l[i] { assert Segment(l[i]); }
  }

  lemma LabelWordsAreWords()
    ensures Words(LABEL_WORDS)
  {
  }

  lemma HeadIsJoined()
    ensures Spaced(LABEL_HEAD) == Spaced(Join(LABEL_WORDS, '-'))
  {
    JoinThree(LABEL_WORDS[0], LABEL_WORDS[1], LABEL_WORDS[2]);
    assert LABEL_WORDS == [LABEL_WORDS[0], LABEL_WORDS[1], LABEL_WORDS[2]];
    assert LABEL_WORDS[0] + ("-" + (LABEL_WORDS[1] + ("-" + LABEL_WORDS[2]))) == "Allow-Service-Account";
  }

  lemma JoinThree(a: string, b: string, c: string)
    ensures Join([a, b, c], '-') == a + ("-" + (b + ("-" + c)))
  {
    assert [a, b, c][1..] == [b, c] && [b, c][1..] == [c];
    assert Join([b, c], '-') == b + ("-" + c);
    assert a + ['-'] + Join([b, c], '-') == a + ("-" + Join([b, c], '-'));
  }

  predicate Alphanumeric(s: string) {
    forall i :: 0 <= i < |s| ==> Capital(s[i]) || LowerOrDigit(s[i])
  }

  lemma TailIsAlphanumeric(w: string)
    requires LowerTail(w)
    ensures Alphanumeric(w)
  {
    forall i | 0 <= i < |w| ensures Capital(w[i]) || LowerOrDigit(w[i]) { assert LowerOrDigit(w[i]); }
  }

  lemma {:induction false} CamelIsAlphanumeric(l: seq<string>)
    requires Words(l)
    ensures Alphanumeric(Camel(l))
  {
    if l != [] {
      assert Word(l[0]);
      TailIsAlphanumeric(l[0][1..]);
      CamelIsAlphanumeric(l[1..]);
    }
  }

  /** Reading the format's spaces as hyphens changes no label. */
  lemma SidLabelWords(name: string, namespace: string)
    ensures SidLabel(name, namespace) == LabelWith(Join(LABEL_WORDS, '-'), name, namespace)
  {
    HeadIsJoined();
    SpacedLabel(LABEL_HEAD, namespace, name);
    SpacedLabel(Join(LABEL_WORDS, '-'), namespace, name);
  }

  /** Splitting a role's label at its capitals gives back the segments of its namespace and name,
      after the words of the format; the label has no space and no hyphen. */
  lemma SidLabelInverts(ns: seq<string>, name: seq<string>)
    requires Segments(ns) && Segments(name)
    ensures
      var sid := SidLabel(Join(name, '-'), Join(ns, '-'));
      Alphanumeric(sid) && Split(sid) == AllLowered(LABEL_WORDS) + (ns + name)
  {
    LabelWordsAreWords();
    SidLabelWords(Join(name, '-'), Join(ns, '-'));
    LabelSplits(LABEL_WORDS, ns, name);
    SegmentsAreWords(ns);
    SegmentsAreWords(name);
    LabelIsCamel(LABEL_WORDS, ns, name);
    CamelIsAlphanumeric(LABEL_WORDS + (ns + name));
  }

  /** Two labels are the same exactly when the segments, read through namespace and name, are. */
  lemma LabelsEqualExactly(ns: seq<string>, name: seq<string>, ns': seq<string>, name': seq<string>)
    requires Segments(ns) && Segments(name) && Segments(ns') && Segments(name')
    ensures SidLabel(Join(name, '-'), Join(ns, '-')) == SidLabel(Join(name', '-'), Join(ns', '-'))
      <==> ns + name == ns' + name'
  {
    LabelWordsAreWords();
    LabelsWithHead(LABEL_WORDS, ns, name, ns', name');
    SidLabelWords(Join(name, '-'), Join(ns, '-'));
    SidLabelWords(Join(name', '-'), Join(ns', '-'));
  }

  lemma LabelsWithHead(head: seq<string>, ns: seq<string>, name: seq<string>, ns': seq<string>, name': seq<string>)
    requires Words(head) && Segments(ns) && Segments(name) && Segments(ns') && Segments(name')
    ensures LabelWith(Join(head, '-'), Join(name, '-'), Join(ns, '-'))
      == LabelWith(Join(head, '-'), Join(name', '-'), Join(ns', '-'))
      <==> ns + name == ns' + name'
  {
    LabelSplits(head, ns, name);
    LabelSplits(head, ns', name');
    SamePrefix(AllLowered(head), ns + name, ns' + name');
    if ns + name == ns' + name' {
      SegmentsAreWords(ns);
      SegmentsAreWords(name);
      SegmentsAreWords(ns');
      SegmentsAreWords(name');
      LabelIsCamel(head, ns, name);
      LabelIsCamel(head, ns', name');
    }
  }

  lemma SamePrefix(head: seq<string>, a: seq<string>, b: seq<string>)
    ensures head + a == head + b <==> a == b
  {
    assert (head + a)[|head|..] == a && (head + b)[|head|..] == b;
  }

  /** Within one namespace, the empty one of cluster-scoped roles included, the label determines the name. */
  lemma LabelInjectiveInName(ns: seq<string>, name: seq<string>, name': seq<string>)
    requires Segments(ns) && Segments(name) && Segments(name')
    ensures SidLabel(Join(name, '-'), Join(ns, '-')) == SidLabel(Join(name', '-'), Join(ns, '-')) <==> name == name'
  {
    LabelsEqualExactly(ns, name, ns, name');
    SamePrefix(ns, name, name');
  }

  /** Across namespaces it does not: "a/b-c" and "a-b/c" share a label. */
  lemma LabelCollision()
    ensures SidLabel("b-c", "a") == SidLabel("c", "a-b")
  {
    LabelsEqualExactly(["a"], ["b", "c"], ["a", "b"], ["c"]);
    assert ["b", "c"][1..] == ["c"] && ["a", "b"][1..] == ["b"];
    assert "b" + "-" + "c" == "b-c" && "a" + "-" + "b" == "a-b";
    assert Join(["b", "c"], '-') == "b-c" && Join(["a", "b"], '-') == "a-b";
  }
}

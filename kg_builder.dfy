/**
 * Knowledge-graph construction (src/kg_builder.py): entity normalisation,
 * paragraph splitting, triple extraction over a dependency parse, relation
 * canonicalisation and the insertion of accepted triples into a directed
 * graph. The parser is external: the model receives its output.
 */
module KgBuilder {
  import opened Text

  // ---------------------------------------------------------------------------
  // normalize

  /** `normalize(text)`: lower-case, strip surrounding whitespace, then delete every "." and ",". */
  function Normalize(text: string): string {
    Replace(Replace(Strip(Lower(text)), ".", ""), ",", "")
  }

  /** What a normalised entity never contains: capitals, "." or ",". */
  predicate IsNodeKey(s: string) {
    NoUpper(s) && '.' !in s && ',' !in s
  }

  lemma NormalizeIsNodeKey(text: string)
    ensures IsNodeKey(Normalize(text))
  {
    var lowered := Lower(text);
    var stripped := Strip(lowered);
    var noDots := Replace(stripped, ".", "");
    var r := Replace(noDots, ",", "");
    StripChars(lowered);
    RemoveChar(stripped, '.', "");
    RemoveChar(noDots, ',', "");
    if '.' in r {
      ReplaceChars(noDots, ",", "", '.');
    }
    forall i | 0 <= i < |r| ensures !IsUpper(r[i]) {
      ReplaceChars(noDots, ",", "", r[i]);
      ReplaceChars(stripped, ".", "", r[i]);
      var k :| 0 <= k < |lowered| && lowered[k] == r[i];
    }
  }

  lemma NoOccurrenceOfAbsentChar(s: string, c: char)
    requires c !in s
    ensures !Contains(s, [c])
  {
    forall k | 0 <= k <= |s| - 1 ensures !OccursAt(s, [c], k) {
      assert s[k..k + 1] == [s[k]];
    }
  }

  /** A string that is already lower-case, stripped and free of "." and "," is left as it is. */
  lemma NormalizeFixedPoint(s: string)
    requires IsNodeKey(s) && IsStripped(s)
    ensures Normalize(s) == s
  {
    LowerOfLowercase(s);
    StripStripped(s);
    NoOccurrenceOfAbsentChar(s, '.');
    ReplaceAbsent(s, ".", "");
    NoOccurrenceOfAbsentChar(s, ',');
    ReplaceAbsent(s, ",", "");
  }

  /**
   * `normalize` strips before it deletes punctuation, so deleting a "." can
   * expose whitespace that a second pass strips: it is not idempotent.
   */
  lemma NormalizeNotIdempotent()
    ensures Normalize("a .") == "a "
    ensures Normalize(Normalize("a .")) == "a"
  {
    NormalizeDotAfterSpace();
    NormalizeTrailingSpace();
  }

  lemma NormalizeDotAfterSpace()
    ensures Normalize("a .") == "a "
  {
    StripLowerOfDotAfterSpace();
    DeleteDotAfterSpace();
    NormalizeWithoutComma("a .", "a .", "a ");
  }

  /** `normalize` in two steps, when the text left after deleting "." has no ",". */
  lemma NormalizeWithoutComma(text: string, stripped: string, undotted: string)
    requires Strip(Lower(text)) == stripped && Replace(stripped, ".", "") == undotted
    requires ',' !in undotted
    ensures Normalize(text) == undotted
  {
    NoOccurrenceOfAbsentChar(undotted, ',');
    ReplaceAbsent(undotted, ",", "");
  }

  lemma StripLowerOfDotAfterSpace()
    ensures Strip(Lower("a .")) == "a ."
  {
    LowerOfLowercase("a .");
    assert IsStripped("a .");
    StripStripped("a .");
  }

  lemma DeleteDotAfterSpace()
    ensures Replace("a .", ".", "") == "a "
  {
    assert FirstOccurrence(".", ".") == Some(0);
    assert " ."[..1][0] == ' ' && " ."[1..] == ".";
    assert FirstOccurrence(" .", ".") == Some(1);
    assert "a ."[..1][0] == 'a' && "a ."[1..] == " .";
    assert FirstOccurrence("a .", ".") == Some(2);
    assert FirstOccurrence("", ".") == None;
    assert "a ."[..2] == "a " && "a ."[3..] == "";
    assert SplitOn("", ".") == [""];
    assert SplitOn("a .", ".") == ["a ", ""];
  }

  lemma NormalizeTrailingSpace()
    ensures Normalize("a ") == "a"
  {
    LowerOfLowercase("a ");
    assert TrimLeft("a ") == "a ";
    assert TrimRight("a ") == "a";
    NoOccurrenceOfAbsentChar("a", '.');
    ReplaceAbsent("a", ".", "");
    NoOccurrenceOfAbsentChar("a", ',');
    ReplaceAbsent("a", ",", "");
  }

  // ---------------------------------------------------------------------------
  // Paragraphs

  const ParagraphBreak := "\n\n"

  /** The stripped pieces that are not blank, in order. */
  function StrippedNonBlank(pieces: seq<string>): seq<string> {
    if pieces == [] then []
    else
      var p := Strip(pieces[0]);
      (if p != [] then [p] else []) + StrippedNonBlank(pieces[1..])
  }

  /** Every paragraph is non-empty and has no surrounding whitespace. */
  predicate CleanParagraphs(ps: seq<string>) {
    forall i :: 0 <= i < |ps| ==> ps[i] != [] && IsStripped(ps[i])
  }

  /** Keeping the stripped non-blank pieces leaves clean paragraphs, no more of them than pieces. */
  lemma {:induction false} StrippedNonBlankClean(pieces: seq<string>)
    ensures CleanParagraphs(StrippedNonBlank(pieces))
    ensures |StrippedNonBlank(pieces)| <= |pieces|
  {
    if pieces != [] {
      StrippedNonBlankClean(pieces[1..]);
      var p := Strip(pieces[0]);
      var rest := StrippedNonBlank(pieces[1..]);
      if p != [] {
        assert StrippedNonBlank(pieces) == [p] + rest;
        CleanParagraphsCons(p, rest);
      } else {
        assert StrippedNonBlank(pieces) == rest;
      }
    }
  }

  lemma CleanParagraphsCons(p: string, rest: seq<string>)
    requires p != [] && IsStripped(p) && CleanParagraphs(rest)
    ensures CleanParagraphs([p] + rest)
  {
    forall i | 1 <= i < |rest| + 1 ensures ([p] + rest)[i] == rest[i - 1] {
    }
  }

  /**
   * `[p.strip() for p in text.split('\n\n') if p.strip()]`: no paragraph is
   * empty or has surrounding whitespace.
   */
  function Paragraphs(text: string): (ps: seq<string>)
    ensures CleanParagraphs(ps)
  {
    var pieces := SplitOn(text, ParagraphBreak);
    StrippedNonBlankClean(pieces);
    StrippedNonBlank(pieces)
  }

  lemma {:induction false} StrippedNonBlankOfBlank(pieces: seq<string>)
    requires forall i :: 0 <= i < |pieces| ==> AllSpace(pieces[i])
    ensures StrippedNonBlank(pieces) == []
  {
    if pieces != [] {
      StripEmpty(pieces[0]);
      StrippedNonBlankOfBlank(pieces[1..]);
    }
  }

  /** A blank corpus has no paragraphs. */
  lemma ParagraphsOfBlank(text: string)
    requires AllSpace(text)
    ensures Paragraphs(text) == []
  {
    var pieces := SplitOn(text, ParagraphBreak);
    forall i | 0 <= i < |pieces| ensures AllSpace(pieces[i]) {
      forall k | 0 <= k < |pieces[i]| ensures IsSpace(pieces[i][k]) {
        SplitOnChars(text, ParagraphBreak, i, pieces[i][k]);
        var m :| 0 <= m < |text| && text[m] == pieces[i][k];
      }
    }
    StrippedNonBlankOfBlank(pieces);
  }

  /** Text without a blank-line break is one paragraph, stripped, unless it is blank. */
  lemma ParagraphsOfOne(text: string)
    requires !Contains(text, ParagraphBreak) && !AllSpace(text)
    ensures Paragraphs(text) == [Strip(text)]
  {
    StripEmpty(text);
    assert SplitOn(text, ParagraphBreak) == [text];
    assert StrippedNonBlank([text]) == [Strip(text)] + StrippedNonBlank([]);
  }

  // ---------------------------------------------------------------------------
  // Triple extraction over a dependency parse

  /** A left or right child of a token: its text and dependency label. */
  datatype Dependent = Dependent(text: string, dep: string)

  /** A parsed token: part of speech, lemma (base form) and its dependents on either side. */
  datatype Token = Token(pos: string, lemmaForm: string, lefts: seq<Dependent>, rights: seq<Dependent>)

  /** A named-entity span and its label. */
  datatype Entity = Entity(text: string, labelName: string)

  /** One sentence as the parser returns it. */
  datatype Sentence = Sentence(tokens: seq<Token>, ents: seq<Entity>)

  datatype Triple = Triple(subj: string, pred: string, obj: string)

  /** The dependency labels of a subject and of an object. */
  const SubjectDeps: set<string> := {"nsubj", "nsubjpass"}
  const ObjectDeps: set<string> := {"dobj", "attr", "pobj"}

  /** `[w for w in ds if w.dep_ in labels]`: the dependents with one of the labels, in order. */
  function WithDep(ds: seq<Dependent>, labels: set<string>): seq<Dependent> {
    if ds == [] then []
    else (if ds[0].dep in labels then [ds[0]] else []) + WithDep(ds[1..], labels)
  }

  /** The filter keeps exactly the dependents carrying one of the labels. */
  lemma {:induction false} WithDepMembers(ds: seq<Dependent>, labels: set<string>)
    ensures forall d :: d in WithDep(ds, labels) <==> d in ds && d.dep in labels
  {
    if ds != [] {
      WithDepMembers(ds[1..], labels);
      assert forall d :: d in ds <==> d == ds[0] || d in ds[1..];
    }
  }

  /** The texts of the dependents, in order. */
  function Texts(ds: seq<Dependent>): (r: seq<string>)
    ensures |r| == |ds|
  {
    if ds == [] then [] else [ds[0].text] + Texts(ds[1..])
  }

  /** `" ".join(w.text for w in ds)`. */
  function SpanText(ds: seq<Dependent>): string {
    Join(Texts(ds), " ")
  }

  /** The triple a verb contributes, if it has both a subject and an object dependent. */
  function VerbTriple(t: Token): Option<Triple> {
    if t.pos != "VERB" then None
    else
      var subj := WithDep(t.lefts, SubjectDeps);
      var obj := WithDep(t.rights, ObjectDeps);
      if subj != [] && obj != [] then Some(Triple(Lower(SpanText(subj)), Lower(t.lemmaForm), Lower(SpanText(obj))))
      else None
  }

  /**
   * A token yields a triple exactly when it is a verb with a subject on its
   * left and an object on its right; the triple's predicate is the verb's
   * lower-cased lemma.
   */
  lemma VerbTripleCondition(t: Token)
    ensures VerbTriple(t).Some? <==>
      t.pos == "VERB"
      && (exists d :: d in t.lefts && d.dep in SubjectDeps)
      && (exists d :: d in t.rights && d.dep in ObjectDeps)
    ensures VerbTriple(t).Some? ==> VerbTriple(t).value.pred == Lower(t.lemmaForm)
  {
    var subj := WithDep(t.lefts, SubjectDeps);
    var obj := WithDep(t.rights, ObjectDeps);
    WithDepMembers(t.lefts, SubjectDeps);
    WithDepMembers(t.rights, ObjectDeps);
    if subj != [] {
      assert subj[0] in subj;
    }
    if obj != [] {
      assert obj[0] in obj;
    }
  }

  /** The verb triples of a sentence's tokens, at most one per token, in token order. */
  function VerbTriples(tokens: seq<Token>): (r: seq<Triple>)
    ensures |r| <= |tokens|
  {
    if tokens == [] then []
    else
      var last := VerbTriple(tokens[|tokens| - 1]);
      VerbTriples(tokens[..|tokens| - 1]) + (if last.Some? then [last.value] else [])
  }

  function EntityTriple(e: Entity): Triple {
    Triple(Lower(e.text), "is_a", Lower(e.labelName))
  }

  /** One `is_a` triple per entity span, in order. */
  function EntityTriples(ents: seq<Entity>): (r: seq<Triple>)
    ensures |r| == |ents|
    ensures forall i :: 0 <= i < |ents| ==> r[i] == Triple(Lower(ents[i].text), "is_a", Lower(ents[i].labelName))
  {
    if ents == [] then [] else EntityTriples(ents[..|ents| - 1]) + [EntityTriple(ents[|ents| - 1])]
  }

  /** The triples of one sentence: its verb triples, then one `is_a` triple per entity. */
  function SentenceTriples(s: Sentence): seq<Triple> {
    VerbTriples(s.tokens) + EntityTriples(s.ents)
  }

  /** Every entity span of a sentence yields exactly one `is_a` triple, after all verb triples. */
  lemma SentenceTriplesLayout(s: Sentence)
    ensures var n := |VerbTriples(s.tokens)|;
      && |SentenceTriples(s)| == n + |s.ents|
      && SentenceTriples(s)[..n] == VerbTriples(s.tokens)
      && forall i :: 0 <= i < |s.ents| ==>
           SentenceTriples(s)[n + i] == Triple(Lower(s.ents[i].text), "is_a", Lower(s.ents[i].labelName))
  {
    var v, e := VerbTriples(s.tokens), EntityTriples(s.ents);
    assert SentenceTriples(s) == v + e;
    assert (v + e)[..|v|] == v;
  }

  /** The triples of a parsed paragraph, sentence by sentence. */
  function ParseTriples(sents: seq<Sentence>): seq<Triple> {
    if sents == [] then [] else ParseTriples(sents[..|sents| - 1]) + SentenceTriples(sents[|sents| - 1])
  }

  lemma VerbTriplesStep(tokens: seq<Token>, k: nat)
    requires k < |tokens|
    ensures VerbTriples(tokens[..k + 1]) ==
      VerbTriples(tokens[..k]) + (if VerbTriple(tokens[k]).Some? then [VerbTriple(tokens[k]).value] else [])
  {
    assert tokens[..k + 1][..k] == tokens[..k];
  }

  lemma EntityTriplesStep(ents: seq<Entity>, k: nat)
    requires k < |ents|
    ensures EntityTriples(ents[..k + 1]) == EntityTriples(ents[..k]) + [EntityTriple(ents[k])]
  {
    assert ents[..k + 1][..k] == ents[..k];
  }

  lemma ParseTriplesStep(sents: seq<Sentence>, k: nat)
    requires k < |sents|
    ensures ParseTriples(sents[..k + 1]) == ParseTriples(sents[..k]) + VerbTriples(sents[k].tokens) + EntityTriples(sents[k].ents)
  {
    assert sents[..k + 1][..k] == sents[..k];
  }

  /** `extract_entities_and_relations` on the parse of one paragraph. */
  method ExtractTriples(sents: seq<Sentence>) returns (triples: seq<Triple>)
    ensures triples == ParseTriples(sents)
  {
    triples := [];
    for si := 0 to |sents|
      invariant triples == ParseTriples(sents[..si])
    {
      ParseTriplesStep(sents, si);
      triples := AppendSentenceTriples(triples, sents[si]);
    }
    assert sents[..|sents|] == sents;
  }

  /** The body of the sentence loop: the sentence's verb triples, then its entity triples, appended to `triples`. */
  method AppendSentenceTriples(triples: seq<Triple>, sent: Sentence) returns (extended: seq<Triple>)
    ensures extended == triples + VerbTriples(sent.tokens) + EntityTriples(sent.ents)
  {
    extended := triples;
    for ti := 0 to |sent.tokens|
      invariant extended == triples + VerbTriples(sent.tokens[..ti])
    {
      VerbTriplesStep(sent.tokens, ti);
      var found := VerbTriple(sent.tokens[ti]);
      if found.Some? {
        extended := extended + [found.value];
      }
    }
    assert sent.tokens[..|sent.tokens|] == sent.tokens;
    ghost var afterVerbs := extended;
    for ei := 0 to |sent.ents|
      invariant extended == afterVerbs + EntityTriples(sent.ents[..ei])
    {
      EntityTriplesStep(sent.ents, ei);
      extended := extended + [EntityTriple(sent.ents[ei])];
    }
    assert sent.ents[..|sent.ents|] == sent.ents;
  }

  // ---------------------------------------------------------------------------
  // Relation canonicalisation

  /** `p.lower()` with "has symptom", "treated by" and "treated with" rewritten in snake case. */
  function CanonicalRelation(p: string): string {
    Replace(Replace(Replace(Lower(p), "has symptom", "has_symptom"), "treated by", "treated_by"), "treated with", "treated_with")
  }

  lemma ReplaceKeepsLowercase(s: string, pat: string, rep: string)
    requires pat != [] && NoUpper(s) && NoUpper(rep)
    ensures NoUpper(Replace(s, pat, rep))
  {
    var r := Replace(s, pat, rep);
    forall i | 0 <= i < |r| ensures !IsUpper(r[i]) {
      ReplaceChars(s, pat, rep, r[i]);
    }
  }

  /** A canonical relation label never contains a capital letter. */
  lemma CanonicalRelationLowercase(p: string)
    ensures NoUpper(CanonicalRelation(p))
  {
    var a := Replace(Lower(p), "has symptom", "has_symptom");
    var b := Replace(a, "treated by", "treated_by");
    ReplaceKeepsLowercase(Lower(p), "has symptom", "has_symptom");
    ReplaceKeepsLowercase(a, "treated by", "treated_by");
    ReplaceKeepsLowercase(b, "treated with", "treated_with");
  }

  /** A label containing none of the three phrases is only lower-cased. */
  lemma CanonicalRelationPlain(p: string)
    requires !Contains(Lower(p), "has symptom") && !Contains(Lower(p), "treated by") && !Contains(Lower(p), "treated with")
    ensures CanonicalRelation(p) == Lower(p)
  {
    ReplaceAbsent(Lower(p), "has symptom", "has_symptom");
    ReplaceAbsent(Lower(p), "treated by", "treated_by");
    ReplaceAbsent(Lower(p), "treated with", "treated_with");
  }

  // ---------------------------------------------------------------------------
  // The graph

  /** A directed graph as a value: its nodes and, per ordered pair, the relation of its one edge. */
  datatype Graph = Graph(nodes: set<string>, edges: map<(string, string), string>)

  /** The networkx `DiGraph` the builder fills: one edge per ordered pair, carrying a relation. */
  class DiGraph {
    var nodes: set<string>
    var edges: map<(string, string), string>

    /** Every edge joins two nodes of the graph. */
    ghost predicate Valid()
      reads this
    {
      forall e :: e in edges ==> e.0 in nodes && e.1 in nodes
    }

    function Snapshot(): Graph
      reads this
    {
      Graph(nodes, edges)
    }

    constructor ()
      ensures Valid() && nodes == {} && edges == map[]
    {
      nodes, edges := {}, map[];
    }

    /** `add_node(n)`: adding a node that is already there changes nothing. */
    method AddNode(n: string)
      requires Valid()
      modifies this
      ensures Valid()
      ensures nodes == old(nodes) + {n} && edges == old(edges)
    {
      nodes := nodes + {n};
    }

    /** `add_edge(u, v, relation=r)`: adds the endpoints, and the edge or its new relation. */
    method AddEdge(u: string, v: string, relation: string)
      requires Valid()
      modifies this
      ensures Valid()
      ensures nodes == old(nodes) + {u, v} && edges == old(edges)[(u, v) := relation]
    {
      nodes := nodes + {u, v};
      edges := edges[(u, v) := relation];
    }
  }

  /** A triple as the building loop sees it: normalised endpoints and the canonical relation. */
  datatype Fact = Fact(src: string, relation: string, dst: string)

  function Prepare(t: Triple): Fact {
    Fact(Normalize(t.subj), CanonicalRelation(t.pred), Normalize(t.obj))
  }

  function PrepareAll(triples: seq<Triple>): (facts: seq<Fact>)
    ensures |facts| == |triples|
    ensures forall i :: 0 <= i < |triples| ==> facts[i] == Prepare(triples[i])
  {
    seq(|triples|, i requires 0 <= i < |triples| => Prepare(triples[i]))
  }

  /** The builder's filter: both endpoints non-empty and different (no self-loops). */
  predicate Accepted(f: Fact) {
    f.src != [] && f.dst != [] && f.src != f.dst
  }

  /** One iteration of the building loop. */
  function Insert(g: Graph, f: Fact): Graph {
    if Accepted(f) then Graph(g.nodes + {f.src, f.dst}, g.edges[(f.src, f.dst) := f.relation])
    else g
  }

  /** The graph built from a sequence of facts, inserted in order into an empty graph. */
  function GraphOf(facts: seq<Fact>): Graph {
    if facts == [] then Graph({}, map[])
    else Insert(GraphOf(facts[..|facts| - 1]), facts[|facts| - 1])
  }

  lemma GraphOfStep(facts: seq<Fact>, k: nat)
    requires k < |facts|
    ensures GraphOf(facts[..k + 1]) == Insert(GraphOf(facts[..k]), facts[k])
  {
    assert facts[..k + 1][..k] == facts[..k];
  }

  /** The guarded body of the building loop: both endpoints and the edge, for an accepted fact only. */
  method AddIfAccepted(g: DiGraph, f: Fact)
    requires g.Valid()
    modifies g
    ensures g.Valid() && g.Snapshot() == Insert(old(g.Snapshot()), f)
  {
    if f.src != [] && f.dst != [] && f.src != f.dst {
      g.AddNode(f.src);
      g.AddNode(f.dst);
      g.AddEdge(f.src, f.dst, f.relation);
      assert g.nodes == old(g.nodes) + {f.src, f.dst};
    }
  }

  /** The body of the building loop: normalise one triple, then insert it if it is accepted. */
  method AddTriple(g: DiGraph, t: Triple)
    requires g.Valid()
    modifies g
    ensures g.Valid() && g.Snapshot() == Insert(old(g.Snapshot()), Prepare(t))
  {
    var sNorm, oNorm := Normalize(t.subj), Normalize(t.obj);
    var relation := CanonicalRelation(t.pred);
    AddIfAccepted(g, Fact(sNorm, relation, oNorm));
  }

  /** The graph of the first `k` triples. */
  ghost function BuiltPrefix(triples: seq<Triple>, k: nat): Graph
    requires k <= |triples|
  {
    GraphOf(PrepareAll(triples)[..k])
  }

  lemma BuiltPrefixStep(triples: seq<Triple>, k: nat)
    requires k < |triples|
    ensures BuiltPrefix(triples, k + 1) == Insert(BuiltPrefix(triples, k), Prepare(triples[k]))
  {
    GraphOfStep(PrepareAll(triples), k);
  }

  lemma BuiltPrefixAll(triples: seq<Triple>)
    ensures BuiltPrefix(triples, |triples|) == GraphOf(PrepareAll(triples))
  {
    assert PrepareAll(triples)[..|triples|] == PrepareAll(triples);
  }

  /** The loop of `build_knowledge_graph` over its triples. */
  method BuildGraph(triples: seq<Triple>) returns (g: DiGraph)
    ensures fresh(g) && g.Valid()
    ensures g.Snapshot() == GraphOf(PrepareAll(triples))
  {
    g := new DiGraph();
    for k := 0 to |triples|
      invariant g.Valid() && g.Snapshot() == BuiltPrefix(triples, k)
    {
      BuiltPrefixStep(triples, k);
      AddTriple(g, triples[k]);
    }
    BuiltPrefixAll(triples);
  }

  /** All triples of a corpus: the triples of each paragraph's parse, paragraph by paragraph. */
  function CorpusTriples(paragraphs: seq<string>, parse: string -> seq<Sentence>): seq<Triple> {
    if paragraphs == [] then []
    else CorpusTriples(paragraphs[..|paragraphs| - 1], parse) + ParseTriples(parse(paragraphs[|paragraphs| - 1]))
  }

  /** The corpus triples grow by one paragraph's triples at a time. */
  lemma CorpusTriplesStep(paragraphs: seq<string>, parse: string -> seq<Sentence>, k: nat)
    requires k < |paragraphs|
    ensures CorpusTriples(paragraphs[..k + 1], parse) == CorpusTriples(paragraphs[..k], parse) + ParseTriples(parse(paragraphs[k]))
  {
    assert paragraphs[..k + 1][..k] == paragraphs[..k];
  }

  /** The extraction loop: the triples of every paragraph, in corpus order. */
  method CollectTriples(paragraphs: seq<string>, parse: string -> seq<Sentence>) returns (allTriples: seq<Triple>)
    ensures allTriples == CorpusTriples(paragraphs, parse)
  {
    allTriples := [];
    for k := 0 to |paragraphs|
      invariant allTriples == CorpusTriples(paragraphs[..k], parse)
    {
      var triples := ExtractTriples(parse(paragraphs[k]));
      CorpusTriplesStep(paragraphs, parse, k);
      allTriples := allTriples + triples;
    }
    assert paragraphs[..|paragraphs|] == paragraphs;
  }

  /**
   * `build_knowledge_graph` without the file I/O: split the corpus into
   * paragraphs, extract the triples of each paragraph's parse, insert them.
   */
  method BuildKnowledgeGraph(text: string, parse: string -> seq<Sentence>) returns (g: DiGraph)
    ensures fresh(g) && g.Valid()
    ensures g.Snapshot() == GraphOf(PrepareAll(CorpusTriples(Paragraphs(text), parse)))
  {
    var paragraphs := Paragraphs(text);
    var allTriples := CollectTriples(paragraphs, parse);
    g := BuildGraph(allTriples);
  }

  // ---------------------------------------------------------------------------
  // What the built graph satisfies

  /** The endpoints of a prepared triple are normalised entities. */
  lemma PrepareAllKeys(triples: seq<Triple>)
    ensures forall f :: f in PrepareAll(triples) ==> IsNodeKey(f.src) && IsNodeKey(f.dst)
  {
    forall f | f in PrepareAll(triples) ensures IsNodeKey(f.src) && IsNodeKey(f.dst) {
      var i :| 0 <= i < |triples| && PrepareAll(triples)[i] == f;
      NormalizeIsNodeKey(triples[i].subj);
      NormalizeIsNodeKey(triples[i].obj);
    }
  }

  /**
   * A graph as the builder leaves it: every edge joins two distinct nodes,
   * every node is the endpoint of an edge, and every node is a non-empty
   * normalised entity.
   */
  ghost predicate BuiltShape(g: Graph) {
    EdgesJoinNodes(g) && NodesOnEdges(g)
  }

  ghost predicate EdgesJoinNodes(g: Graph) {
    forall e :: e in g.edges ==> e.0 != e.1 && e.0 in g.nodes && e.1 in g.nodes
  }

  ghost predicate NodesOnEdges(g: Graph) {
    forall n :: n in g.nodes ==> n != [] && IsNodeKey(n) && exists e :: e in g.edges && (e.0 == n || e.1 == n)
  }

  lemma InsertKeepsEdges(g: Graph, f: Fact)
    requires EdgesJoinNodes(g)
    ensures EdgesJoinNodes(Insert(g, f))
  {
  }

  lemma InsertKeepsNodes(g: Graph, f: Fact)
    requires NodesOnEdges(g) && IsNodeKey(f.src) && IsNodeKey(f.dst)
    ensures NodesOnEdges(Insert(g, f))
  {
    if Accepted(f) {
      var g' := Insert(g, f);
      assert (f.src, f.dst) in g'.edges;
      forall v | v in g'.nodes && v != f.src && v != f.dst
        ensures exists e :: e in g'.edges && (e.0 == v || e.1 == v)
      {
        var e :| e in g.edges && (e.0 == v || e.1 == v);
        assert e in g'.edges;
      }
    }
  }

  lemma {:induction false} GraphOfShape(facts: seq<Fact>)
    requires forall f :: f in facts ==> IsNodeKey(f.src) && IsNodeKey(f.dst)
    ensures BuiltShape(GraphOf(facts))
  {
    if facts != [] {
      var n := |facts| - 1;
      assert forall x :: x in facts[..n] ==> x in facts;
      GraphOfShape(facts[..n]);
      var g := GraphOf(facts[..n]);
      InsertKeepsEdges(g, facts[n]);
      InsertKeepsNodes(g, facts[n]);
    }
  }

  /** A built graph has no self-loops, and every node is a normalised entity on some edge. */
  lemma BuiltGraphShape(triples: seq<Triple>)
    ensures BuiltShape(GraphOf(PrepareAll(triples)))
  {
    PrepareAllKeys(triples);
    GraphOfShape(PrepareAll(triples));
  }

  /** An ordered pair has an edge exactly when some accepted fact joins it. */
  lemma {:induction false} GraphOfEdges(facts: seq<Fact>, p: (string, string))
    ensures p in GraphOf(facts).edges <==> exists i :: 0 <= i < |facts| && Accepted(facts[i]) && (facts[i].src, facts[i].dst) == p
  {
    if facts != [] {
      var n := |facts| - 1;
      var prefix := facts[..n];
      GraphOfEdges(prefix, p);
      if exists i :: 0 <= i < n && Accepted(prefix[i]) && (prefix[i].src, prefix[i].dst) == p {
        var i :| 0 <= i < n && Accepted(prefix[i]) && (prefix[i].src, prefix[i].dst) == p;
        assert facts[i] == prefix[i];
      }
      if exists i :: 0 <= i < |facts| && Accepted(facts[i]) && (facts[i].src, facts[i].dst) == p {
        var i :| 0 <= i < |facts| && Accepted(facts[i]) && (facts[i].src, facts[i].dst) == p;
        if i < n {
          assert prefix[i] == facts[i];
        }
      }
    }
  }

  /** The nodes are exactly the endpoints of the accepted facts. */
  lemma GraphOfNodes(facts: seq<Fact>, v: string)
    requires forall f :: f in facts ==> IsNodeKey(f.src) && IsNodeKey(f.dst)
    ensures v in GraphOf(facts).nodes <==>
      exists i :: 0 <= i < |facts| && Accepted(facts[i]) && (facts[i].src == v || facts[i].dst == v)
  {
    var g := GraphOf(facts);
    GraphOfShape(facts);
    if v in g.nodes {
      var e :| e in g.edges && (e.0 == v || e.1 == v);
      GraphOfEdges(facts, e);
    }
    if exists i :: 0 <= i < |facts| && Accepted(facts[i]) && (facts[i].src == v || facts[i].dst == v) {
      var i :| 0 <= i < |facts| && Accepted(facts[i]) && (facts[i].src == v || facts[i].dst == v);
      GraphOfEdges(facts, (facts[i].src, facts[i].dst));
    }
  }

  /** The relation on an edge is that of the last accepted fact for the pair: later facts overwrite. */
  lemma {:induction false} GraphOfLastWins(facts: seq<Fact>, i: nat)
    requires i < |facts| && Accepted(facts[i])
    requires forall j :: i < j < |facts| && Accepted(facts[j]) ==> (facts[j].src, facts[j].dst) != (facts[i].src, facts[i].dst)
    ensures (facts[i].src, facts[i].dst) in GraphOf(facts).edges
    ensures GraphOf(facts).edges[(facts[i].src, facts[i].dst)] == facts[i].relation
  {
    var n := |facts| - 1;
    if i < n {
      var prefix := facts[..n];
      assert prefix[i] == facts[i];
      GraphOfLastWins(prefix, i);
    }
  }

  /** Lower-case relations on the facts give lower-case relations on the edges. */
  lemma {:induction false} GraphOfRelationsLowercase(facts: seq<Fact>)
    requires forall f :: f in facts ==> NoUpper(f.relation)
    ensures forall p :: p in GraphOf(facts).edges ==> NoUpper(GraphOf(facts).edges[p])
  {
    if facts != [] {
      var n := |facts| - 1;
      assert forall x :: x in facts[..n] ==> x in facts;
      GraphOfRelationsLowercase(facts[..n]);
      assert facts[n] in facts;
    }
  }

  /** Every relation stored in a built graph is in lower case. */
  lemma BuiltRelationsLowercase(triples: seq<Triple>)
    ensures var g := GraphOf(PrepareAll(triples));
      forall p :: p in g.edges ==> NoUpper(g.edges[p])
  {
    var facts := PrepareAll(triples);
    forall f | f in facts ensures NoUpper(f.relation) {
      var i :| 0 <= i < |facts| && facts[i] == f;
      CanonicalRelationLowercase(triples[i].pred);
    }
    GraphOfRelationsLowercase(facts);
  }

  /** How many facts the builder accepts. */
  function AcceptedCount(facts: seq<Fact>): (n: nat)
    ensures n <= |facts|
  {
    if facts == [] then 0
    else AcceptedCount(facts[..|facts| - 1]) + (if Accepted(facts[|facts| - 1]) then 1 else 0)
  }

  /** There are never more edges than accepted facts. */
  lemma {:induction false} GraphOfEdgeCount(facts: seq<Fact>)
    ensures |GraphOf(facts).edges| <= AcceptedCount(facts)
  {
    if facts != [] {
      var n := |facts| - 1;
      GraphOfEdgeCount(facts[..n]);
      var g := GraphOf(facts[..n]);
      var f := facts[n];
      if Accepted(f) {
        assert g.edges[(f.src, f.dst) := f.relation].Keys == g.edges.Keys + {(f.src, f.dst)};
      }
    }
  }

  /** A blank corpus builds an empty graph. */
  lemma BlankCorpusEmptyGraph(text: string, parse: string -> seq<Sentence>)
    requires AllSpace(text)
    ensures GraphOf(PrepareAll(CorpusTriples(Paragraphs(text), parse))) == Graph({}, map[])
  {
    ParagraphsOfBlank(text);
  }
}

/**
 * Graph and vector retrieval for a query (src/retriever.py).
 *
 * The query's parse is abstracted away: the retriever receives the texts of
 * the query's entity mentions and noun tokens, and the vector index's answer
 * as a sequence of matches. What is modelled is the synonym expansion, the
 * one-hop lookup of allow-listed edges around the expanded entities, the
 * fact-line formatting and the sentinel for an empty result.
 */
module Retriever {
  import opened Text
  import opened KgBuilder

  // ---------------------------------------------------------------------------
  // Synonym expansion (lines 21-27, 44-49)

  /** The retriever's fixed synonym table. */
  const Synonyms: map<string, seq<string>> := map[
    "high blood sugar" := ["hyperglycemia", "diabetes"],
    "heart attack" := ["myocardial infarction", "mi"],
    "high blood pressure" := ["hypertension"],
    "flu" := ["influenza"],
    "covid-19" := ["coronavirus", "sars-cov-2"]
  ]

  /** The synonyms `update` adds for one entity: none unless it is a key of the table. */
  function SynonymsOf(table: map<string, seq<string>>, e: string): set<string> {
    if e in table then set s | s in table[e] else {}
  }

  /** The entities, together with the synonyms of those that are keys of the table. */
  function Expanded(table: map<string, seq<string>>, entities: set<string>): set<string> {
    entities + (set e, s | e in entities && e in table && s in table[e] :: s)
  }

  lemma ExpandedAdd(table: map<string, seq<string>>, done: set<string>, ent: string)
    ensures Expanded(table, done + {ent}) == Expanded(table, done) + {ent} + SynonymsOf(table, ent)
  {
  }

  /** One iteration of the expansion loop: the entity, then its synonyms if it is a key. */
  method AddWithSynonyms(table: map<string, seq<string>>, expanded: set<string>, ent: string) returns (r: set<string>)
    ensures r == expanded + {ent} + SynonymsOf(table, ent)
  {
    r := expanded + {ent};
    if ent in table {
      r := r + SynonymsOf(table, ent);
    }
  }

  /** The expansion loop: each entity goes in, followed by its synonyms. */
  method Expand(table: map<string, seq<string>>, entities: set<string>) returns (expanded: set<string>)
    ensures expanded == Expanded(table, entities)
  {
    expanded := {};
    var todo := entities;
    ghost var done: set<string> := {};
    while todo != {}
      invariant ExpansionSoFar(table, entities, todo, done, expanded)
      decreases |todo|
    {
      var ent :| ent in todo;
      ExpansionStep(table, entities, todo, done, expanded, ent);
      expanded := AddWithSynonyms(table, expanded, ent);
      done, todo := done + {ent}, todo - {ent};
    }
    ExpansionDone(table, entities, done, expanded);
  }

  /** The expansion loop's invariant: `done` are the entities visited so far, and expanded. */
  ghost predicate ExpansionSoFar(table: map<string, seq<string>>, entities: set<string>,
                                 todo: set<string>, done: set<string>, expanded: set<string>)
  {
    todo <= entities && done == entities - todo && expanded == Expanded(table, done)
  }

  lemma ExpansionStep(table: map<string, seq<string>>, entities: set<string>,
                      todo: set<string>, done: set<string>, expanded: set<string>, ent: string)
    requires ExpansionSoFar(table, entities, todo, done, expanded) && ent in todo
    ensures ExpansionSoFar(table, entities, todo - {ent}, done + {ent}, expanded + {ent} + SynonymsOf(table, ent))
  {
    ExpandedAdd(table, done, ent);
  }

  lemma ExpansionDone(table: map<string, seq<string>>, entities: set<string>, done: set<string>, expanded: set<string>)
    requires ExpansionSoFar(table, entities, {}, done, expanded)
    ensures expanded == Expanded(table, entities)
  {
    assert done == entities;
  }

  /** No synonym in the table is itself a key of the table. */
  lemma SynonymsAreNotKeys(e: string, s: string)
    requires e in Synonyms && s in Synonyms[e]
    ensures s !in Synonyms
  {
  }

  /** Expansion is one level deep: expanding the expanded set adds nothing more. */
  lemma ExpandedOneLevel(entities: set<string>)
    ensures Expanded(Synonyms, Expanded(Synonyms, entities)) == Expanded(Synonyms, entities)
  {
    var x := Expanded(Synonyms, entities);
    forall e, s | e in x && e in Synonyms && s in Synonyms[e] ensures s in x {
      if e !in entities {
        var e0, s0 :| e0 in entities && e0 in Synonyms && s0 in Synonyms[e0] && e == s0;
        SynonymsAreNotKeys(e0, s0);
      }
    }
  }

  /** An entity set with no key of the table is left as it is. */
  lemma ExpandedWithoutKeys(entities: set<string>)
    requires forall e :: e in entities ==> e !in Synonyms
    ensures Expanded(Synonyms, entities) == entities
  {
  }

  // ---------------------------------------------------------------------------
  // Fact lines (lines 52-68)

  /** The allow-list of relations the graph lookup reports. */
  const ValidRelations: set<string> :=
    {"has_symptom", "symptom", "exhibits", "causes", "treated_by", "treated_with", "involves", "indicates"}

  /** A relation is reported when its lower-cased form is on the allow-list. */
  predicate Allowed(relation: string) {
    Lower(relation) in ValidRelations
  }

  /** A fact line reads source, relation as stored, target. */
  function FactLine(src: string, relation: string, dst: string): string {
    "- " + Capitalize(src) + " " + relation + " " + Capitalize(dst)
  }

  /** The graph the retriever loads: every edge joins two of its nodes. */
  predicate IsDiGraph(kg: Graph) {
    forall p :: p in kg.edges ==> p.0 in kg.nodes && p.1 in kg.nodes
  }

  /** Line `i` is the fact line of edge `hits[i]`. */
  ghost predicate Formats(kg: Graph, lines: seq<string>, hits: seq<(string, string)>) {
    && |lines| == |hits|
    && forall i :: 0 <= i < |hits| ==>
         hits[i] in kg.edges && lines[i] == FactLine(hits[i].0, kg.edges[hits[i]], hits[i].1)
  }

  lemma FormatsAppend(kg: Graph, l1: seq<string>, h1: seq<(string, string)>, l2: seq<string>, h2: seq<(string, string)>)
    requires Formats(kg, l1, h1) && Formats(kg, l2, h2)
    ensures Formats(kg, l1 + l2, h1 + h2)
  {
    forall i | 0 <= i < |h1 + h2|
      ensures (h1 + h2)[i] in kg.edges
      ensures (l1 + l2)[i] == FactLine((h1 + h2)[i].0, kg.edges[(h1 + h2)[i]], (h1 + h2)[i].1)
    {
      if i >= |h1| {
        assert (h1 + h2)[i] == h2[i - |h1|] && (l1 + l2)[i] == l2[i - |h1|];
      }
    }
  }

  /**
   * How many lines an edge yields for a set of entities: one for each of its
   * endpoints in the set, when its relation is allowed.
   */
  function HitCount(kg: Graph, entities: set<string>, p: (string, string)): nat {
    if p in kg.edges && Allowed(kg.edges[p]) then
      (if p.0 in entities then 1 else 0) + (if p.1 in entities then 1 else 0)
    else 0
  }

  /** The lines one edge yields for one entity, from its outgoing and its incoming side. */
  function EntityCount(kg: Graph, ent: string, p: (string, string)): nat {
    if p in kg.edges && Allowed(kg.edges[p]) then
      (if p.0 == ent then 1 else 0) + (if p.1 == ent then 1 else 0)
    else 0
  }

  /** How often an edge has been reported by the loop over the successors of `ent` seen so far. */
  function OutCount(kg: Graph, ent: string, seen: set<string>, p: (string, string)): nat {
    if p in kg.edges && p.0 == ent && p.1 in seen && Allowed(kg.edges[p]) then 1 else 0
  }

  /** How often an edge has been reported by the loop over the predecessors of `ent` seen so far. */
  function InCount(kg: Graph, ent: string, seen: set<string>, p: (string, string)): nat {
    if p in kg.edges && p.1 == ent && p.0 in seen && Allowed(kg.edges[p]) then 1 else 0
  }

  /** The loop over `neighbors(ent)`: one line per allowed outgoing edge. */
  method OutgoingLines(kg: Graph, ent: string) returns (lines: seq<string>, hits: seq<(string, string)>)
    requires IsDiGraph(kg)
    ensures Formats(kg, lines, hits)
    ensures forall p :: multiset(hits)[p] == (if p in kg.edges && p.0 == ent && Allowed(kg.edges[p]) then 1 else 0)
  {
    var todo := set n | n in kg.nodes && (ent, n) in kg.edges;
    ghost var done: set<string> := {};
    lines, hits := [], [];
    OutgoingStart(kg, ent, todo);
    while todo != {}
      invariant OutgoingSoFar(kg, ent, todo, done, hits)
      invariant Formats(kg, lines, hits)
      decreases |todo|
    {
      var nbr :| nbr in todo;
      var relation := kg.edges[(ent, nbr)];
      OutgoingStep(kg, ent, todo, done, hits, nbr);
      if Lower(relation) in ValidRelations {
        FormatsAppend(kg, lines, hits, [FactLine(ent, relation, nbr)], [(ent, nbr)]);
        lines, hits := lines + [FactLine(ent, relation, nbr)], hits + [(ent, nbr)];
      }
      done, todo := done + {nbr}, todo - {nbr};
    }
    OutgoingDone(kg, ent, done, hits);
  }

  /**
   * The invariant of the loop over the successors: `todo` and `done` split
   * them, and every allowed edge to a visited successor is reported once.
   */
  ghost predicate OutgoingSoFar(kg: Graph, ent: string, todo: set<string>, done: set<string>, hits: seq<(string, string)>) {
    && todo !! done
    && (forall n :: (ent, n) in kg.edges ==> n in todo || n in done)
    && (forall n :: n in todo ==> (ent, n) in kg.edges)
    && (forall p :: multiset(hits)[p] == OutCount(kg, ent, done, p))
  }

  lemma OutgoingStart(kg: Graph, ent: string, todo: set<string>)
    requires IsDiGraph(kg) && todo == set n | n in kg.nodes && (ent, n) in kg.edges
    ensures OutgoingSoFar(kg, ent, todo, {}, [])
  {
  }

  lemma OutgoingStep(kg: Graph, ent: string, todo: set<string>, done: set<string>, hits: seq<(string, string)>, nbr: string)
    requires OutgoingSoFar(kg, ent, todo, done, hits) && nbr in todo
    ensures (ent, nbr) in kg.edges
    ensures OutgoingSoFar(kg, ent, todo - {nbr}, done + {nbr},
      hits + if Lower(kg.edges[(ent, nbr)]) in ValidRelations then [(ent, nbr)] else [])
  {
  }

  lemma OutgoingDone(kg: Graph, ent: string, done: set<string>, hits: seq<(string, string)>)
    requires OutgoingSoFar(kg, ent, {}, done, hits)
    ensures forall p :: multiset(hits)[p] == (if p in kg.edges && p.0 == ent && Allowed(kg.edges[p]) then 1 else 0)
  {
  }

  /** The loop over `predecessors(ent)`: one line per allowed incoming edge, still read source first. */
  method IncomingLines(kg: Graph, ent: string) returns (lines: seq<string>, hits: seq<(string, string)>)
    requires IsDiGraph(kg)
    ensures Formats(kg, lines, hits)
    ensures forall p :: multiset(hits)[p] == (if p in kg.edges && p.1 == ent && Allowed(kg.edges[p]) then 1 else 0)
  {
    var todo := set n | n in kg.nodes && (n, ent) in kg.edges;
    ghost var done: set<string> := {};
    lines, hits := [], [];
    IncomingStart(kg, ent, todo);
    while todo != {}
      invariant IncomingSoFar(kg, ent, todo, done, hits)
      invariant Formats(kg, lines, hits)
      decreases |todo|
    {
      var nbr :| nbr in todo;
      var relation := kg.edges[(nbr, ent)];
      IncomingStep(kg, ent, todo, done, hits, nbr);
      if Lower(relation) in ValidRelations {
        FormatsAppend(kg, lines, hits, [FactLine(nbr, relation, ent)], [(nbr, ent)]);
        lines, hits := lines + [FactLine(nbr, relation, ent)], hits + [(nbr, ent)];
      }
      done, todo := done + {nbr}, todo - {nbr};
    }
    IncomingDone(kg, ent, done, hits);
  }

  /**
   * The invariant of the loop over the predecessors: `todo` and `done` split
   * them, and every allowed edge from a visited predecessor is reported once.
   */
  ghost predicate IncomingSoFar(kg: Graph, ent: string, todo: set<string>, done: set<string>, hits: seq<(string, string)>) {
    && todo !! done
    && (forall n :: (n, ent) in kg.edges ==> n in todo || n in done)
    && (forall n :: n in todo ==> (n, ent) in kg.edges)
    && (forall p :: multiset(hits)[p] == InCount(kg, ent, done, p))
  }

  lemma IncomingStart(kg: Graph, ent: string, todo: set<string>)
    requires IsDiGraph(kg) && todo == set n | n in kg.nodes && (n, ent) in kg.edges
    ensures IncomingSoFar(kg, ent, todo, {}, [])
  {
  }

  lemma IncomingStep(kg: Graph, ent: string, todo: set<string>, done: set<string>, hits: seq<(string, string)>, nbr: string)
    requires IncomingSoFar(kg, ent, todo, done, hits) && nbr in todo
    ensures (nbr, ent) in kg.edges
    ensures IncomingSoFar(kg, ent, todo - {nbr}, done + {nbr},
      hits + if Lower(kg.edges[(nbr, ent)]) in ValidRelations then [(nbr, ent)] else [])
  {
  }

  lemma IncomingDone(kg: Graph, ent: string, done: set<string>, hits: seq<(string, string)>)
    requires IncomingSoFar(kg, ent, {}, done, hits)
    ensures forall p :: multiset(hits)[p] == (if p in kg.edges && p.1 == ent && Allowed(kg.edges[p]) then 1 else 0)
  {
  }

  /** The lines of one expanded entity: none unless it is a node of the graph. */
  method EntityLines(kg: Graph, ent: string) returns (lines: seq<string>, hits: seq<(string, string)>)
    requires IsDiGraph(kg)
    ensures Formats(kg, lines, hits)
    ensures forall p :: multiset(hits)[p] == EntityCount(kg, ent, p)
  {
    if ent in kg.nodes {
      var outLines, outHits := OutgoingLines(kg, ent);
      var inLines, inHits := IncomingLines(kg, ent);
      FormatsAppend(kg, outLines, outHits, inLines, inHits);
      lines, hits := outLines + inLines, outHits + inHits;
    } else {
      lines, hits := [], [];
    }
  }

  lemma HitCountAdd(kg: Graph, done: set<string>, ent: string, p: (string, string))
    requires ent !in done
    ensures HitCount(kg, done + {ent}, p) == HitCount(kg, done, p) + EntityCount(kg, ent, p)
  {
  }

  /** The loop over the expanded entities, each visited once in some order. */
  method CollectLines(kg: Graph, entities: set<string>) returns (lines: seq<string>, hits: seq<(string, string)>)
    requires IsDiGraph(kg)
    ensures Formats(kg, lines, hits)
    ensures forall p :: multiset(hits)[p] == HitCount(kg, entities, p)
  {
    var todo := entities;
    ghost var done: set<string> := {};
    lines, hits := [], [];
    while todo != {}
      invariant done + todo == entities && done !! todo
      invariant Formats(kg, lines, hits)
      invariant CountsHits(kg, done, hits)
      decreases |todo|
    {
      var ent :| ent in todo;
      var more, moreHits := EntityLines(kg, ent);
      FormatsAppend(kg, lines, hits, more, moreHits);
      CountsHitsAdd(kg, done, ent, hits, moreHits);
      lines, hits := lines + more, hits + moreHits;
      done, todo := done + {ent}, todo - {ent};
    }
  }

  /** The hits count every allowed edge once per endpoint among the entities. */
  ghost predicate CountsHits(kg: Graph, entities: set<string>, hits: seq<(string, string)>) {
    forall p :: multiset(hits)[p] == HitCount(kg, entities, p)
  }

  lemma CountsHitsAdd(kg: Graph, done: set<string>, ent: string, hits: seq<(string, string)>, moreHits: seq<(string, string)>)
    requires ent !in done && CountsHits(kg, done, hits)
    requires forall p :: multiset(moreHits)[p] == EntityCount(kg, ent, p)
    ensures CountsHits(kg, done + {ent}, hits + moreHits)
  {
    forall p ensures multiset(hits + moreHits)[p] == HitCount(kg, done + {ent}, p) {
      HitCountAdd(kg, done, ent, p);
    }
  }

  /** The answer when no line is produced. */
  const NoRelations := "No direct graph relations found for query entities."

  /** The lines joined by newlines, or the sentinel when there are none. */
  function Render(lines: seq<string>): string {
    if lines == [] then NoRelations else Join(lines, "\n")
  }

  /** The lower-cased mention texts: the candidate entities of the query. */
  function Candidates(mentions: set<string>): set<string> {
    set m | m in mentions :: Lower(m)
  }

  /**
   * `retrieve_graph`: expand the candidates, collect the fact lines of the
   * allowed edges around them and render them. The order of the lines is
   * that of set iteration, so the contract fixes which lines appear and how
   * often, not their order.
   */
  method RetrieveGraph(kg: Graph, mentions: set<string>)
    returns (result: string, ghost lines: seq<string>, ghost hits: seq<(string, string)>)
    requires IsDiGraph(kg)
    ensures Formats(kg, lines, hits) && result == Render(lines)
    ensures forall p :: multiset(hits)[p] == HitCount(kg, Expanded(Synonyms, Candidates(mentions)), p)
    ensures result == NoRelations <==>
      forall p :: p in kg.edges && Allowed(kg.edges[p]) ==>
        p.0 !in Expanded(Synonyms, Candidates(mentions)) && p.1 !in Expanded(Synonyms, Candidates(mentions))
  {
    var expanded := Expand(Synonyms, Candidates(mentions));
    var found;
    found, hits := CollectLines(kg, expanded);
    lines := found;
    result := if found == [] then NoRelations else Join(found, "\n");
    SentinelExactlyWhenNothingFound(kg, expanded, lines, hits);
  }

  // ---------------------------------------------------------------------------
  // What the graph lookup guarantees

  /** Every reported edge has an allowed relation and an endpoint among the entities. */
  lemma HitsAllowed(kg: Graph, entities: set<string>, hits: seq<(string, string)>, i: nat)
    requires forall p :: multiset(hits)[p] == HitCount(kg, entities, p)
    requires i < |hits|
    ensures hits[i] in kg.edges && Allowed(kg.edges[hits[i]])
    ensures hits[i].0 in entities || hits[i].1 in entities
  {
    assert multiset(hits)[hits[i]] > 0;
  }

  /**
   * Every allowed edge touching the entities is reported, with its source
   * first, its relation as stored and its target last, whichever endpoint
   * the entity is.
   */
  lemma TouchingEdgeReported(kg: Graph, entities: set<string>, lines: seq<string>, hits: seq<(string, string)>, p: (string, string))
    requires Formats(kg, lines, hits)
    requires forall q :: multiset(hits)[q] == HitCount(kg, entities, q)
    requires p in kg.edges && Allowed(kg.edges[p]) && (p.0 in entities || p.1 in entities)
    ensures FactLine(p.0, kg.edges[p], p.1) in lines
  {
    assert multiset(hits)[p] > 0;
    var i :| 0 <= i < |hits| && hits[i] == p;
    assert lines[i] == FactLine(p.0, kg.edges[p], p.1);
  }

  /** Entities that are not nodes of the graph contribute no line. */
  lemma NonNodesContributeNothing(kg: Graph, entities: set<string>, p: (string, string))
    requires IsDiGraph(kg)
    ensures HitCount(kg, entities, p) == HitCount(kg, entities * kg.nodes, p)
  {
  }

  /** An allowed edge with both endpoints among the entities is reported twice. */
  lemma BothEndpointsTwice(kg: Graph, entities: set<string>, p: (string, string))
    requires p in kg.edges && Allowed(kg.edges[p]) && p.0 in entities && p.1 in entities
    ensures HitCount(kg, entities, p) == 2
  {
  }

  /**
   * On a graph the builder made, relations are stored in lower case, so the
   * allow-list check is plain membership.
   */
  lemma AllowedOnBuiltGraph(triples: seq<Triple>, p: (string, string))
    requires p in GraphOf(PrepareAll(triples)).edges
    ensures var r := GraphOf(PrepareAll(triples)).edges[p];
      Allowed(r) <==> r in ValidRelations
  {
    BuiltRelationsLowercase(triples);
    LowerOfLowercase(GraphOf(PrepareAll(triples)).edges[p]);
  }

  /** Every graph the builder makes, in place or as `GraphOf`, meets the lookup's precondition. */
  lemma BuiltGraphIsDiGraph(triples: seq<Triple>)
    ensures IsDiGraph(GraphOf(PrepareAll(triples)))
  {
    BuiltGraphShape(triples);
  }

  lemma FactLineBullet(src: string, relation: string, dst: string)
    ensures |FactLine(src, relation, dst)| >= 2 && FactLine(src, relation, dst)[..2] == "- "
  {
    var a := "- " + Capitalize(src);
    assert a[..2] == "- ";
    var b := a + " " + relation;
    assert b[..2] == a[..2];
    assert FactLine(src, relation, dst)[..2] == b[..2];
  }

  /** A rendered line list starts with the bullet of its first line. */
  lemma {:induction false} JoinStartsWith(lines: seq<string>, sep: string, prefix: string)
    requires lines != [] && |prefix| <= |lines[0]| && lines[0][..|prefix|] == prefix
    ensures |prefix| <= |Join(lines, sep)| && Join(lines, sep)[..|prefix|] == prefix
  {
    if |lines| > 1 {
      assert Join(lines, sep) == lines[0] + (sep + Join(lines[1..], sep));
    }
  }

  /** Rendered fact lines cannot be mistaken for the sentinel. */
  lemma RenderedLinesAreNotSentinel(lines: seq<string>)
    requires lines != [] && |lines[0]| >= 2 && lines[0][..2] == "- "
    ensures Render(lines) != NoRelations
  {
    JoinStartsWith(lines, "\n", "- ");
    var r := Join(lines, "\n");
    assert r[0] == r[..2][0] == '-';
    assert NoRelations == "No direct graph relations found" + " for query entities.";
  }

  /**
   * The sentinel is returned exactly when no allowed edge touches the
   * entities; otherwise the result starts with a fact line's bullet.
   */
  lemma SentinelExactlyWhenNothingFound(kg: Graph, entities: set<string>, lines: seq<string>, hits: seq<(string, string)>)
    requires Formats(kg, lines, hits)
    requires forall p :: multiset(hits)[p] == HitCount(kg, entities, p)
    ensures Render(lines) == NoRelations <==>
      forall p :: p in kg.edges && Allowed(kg.edges[p]) ==> p.0 !in entities && p.1 !in entities
  {
    if lines != [] {
      HitsAllowed(kg, entities, hits, 0);
      FactLineBullet(hits[0].0, kg.edges[hits[0]], hits[0].1);
      RenderedLinesAreNotSentinel(lines);
    } else {
      forall p | p in kg.edges && Allowed(kg.edges[p]) ensures p.0 !in entities && p.1 !in entities {
        assert hits == [];
        assert HitCount(kg, entities, p) == multiset(hits)[p] == 0;
      }
    }
  }

  // ---------------------------------------------------------------------------
  // Vector retrieval and the hybrid result (lines 37, 72-75)

  /** A vector-index match and its metadata. */
  datatype Match = Match(metadata: map<string, string>)

  /** `m.metadata.get('text', '')`. */
  function MatchText(m: Match): string {
    if "text" in m.metadata then m.metadata["text"] else ""
  }

  /** The texts of the matches, one per match, in match order. */
  function VectorTexts(matches: seq<Match>): (texts: seq<string>)
    ensures |texts| == |matches|
    ensures forall i :: 0 <= i < |matches| ==> texts[i] == MatchText(matches[i])
  {
    if matches == [] then [] else [MatchText(matches[0])] + VectorTexts(matches[1..])
  }

  /** A match without a text in its metadata contributes the empty string. */
  lemma VectorTextsMissing(matches: seq<Match>, i: nat)
    requires i < |matches| && "text" !in matches[i].metadata
    ensures VectorTexts(matches)[i] == ""
  {
  }

  /** `hybrid_retrieve`: the vector texts and the graph context, each unchanged. */
  method HybridRetrieve(matches: seq<Match>, kg: Graph, mentions: set<string>)
    returns (docs: seq<string>, kgContext: string, ghost lines: seq<string>, ghost hits: seq<(string, string)>)
    requires IsDiGraph(kg)
    ensures docs == VectorTexts(matches)
    ensures Formats(kg, lines, hits) && kgContext == Render(lines)
    ensures forall p :: multiset(hits)[p] == HitCount(kg, Expanded(Synonyms, Candidates(mentions)), p)
  {
    docs := VectorTexts(matches);
    kgContext, lines, hits := RetrieveGraph(kg, mentions);
  }
}

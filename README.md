# Hybrid medical RAG — a Dafny model of its core

The system answers medical questions by combining two retrievers:

- **Vector retrieval** over chunks of a health corpus.
- **Graph lookup** in a knowledge graph of (subject, relation, object) triples extracted from the same corpus.

A language model then writes the answer from a prompt that holds both. This project models the deterministic core of that pipeline and proves what it guarantees:

- `text.dfy` (`Text`): the Python string operations the core relies on, restricted to ASCII:
  - `lower`, `capitalize`, `strip`, `split()` (word splitting), `split(sep)`, `join`, `replace`, `in` (substring search), and `str(i)` for natural numbers;
  - their laws: split/join round trips, where the last piece of a split starts, and what stripping keeps.
- `chunker.dfy` (`Chunker`), from `src/data_processor.py`:
  - the greedy sentence packing of `chunk_text`;
  - the `chunk-i` records;
  - the upsert batches of 100.
- `kg_builder.dfy` (`KgBuilder`), from `src/kg_builder.py`:
  - `normalize` and the paragraph split;
  - triple extraction over a dependency parse given as data;
  - relation canonicalisation;
  - the building loop, as a `DiGraph` class whose `AddNode`/`AddEdge` update its node set and edge map in place. A value-level specification `GraphOf` describes the graph the loop builds.
- `retriever.dfy` (`Retriever`), from `src/retriever.py`:
  - the synonym table and its one-level expansion;
  - the successor/predecessor loops that emit allow-listed fact lines;
  - the sentinel for an empty result;
  - the text map over vector matches;
  - `hybrid_retrieve`.
- `generator.dfy` (`Generator`), from `src/generator.py`:
  - the graph section and the prompt template;
  - extraction of the answer after the last `Answer:` marker;
  - the three-word fallback.

Loops in the source are methods with loop invariants, each proved against a specification function. Python's iteration over a `set` has no defined order, so it is modelled as an arbitrary choice (`:|`). The graph lookup's result is therefore specified by how often each edge is reported, not by the order of the lines. The line-collecting methods also return `hits`, the edge behind each line; `chunk_text`'s model likewise returns the sentence group behind each chunk.

## Model

| member | source | states |
|---|---|---|
| Chunker.ChunkText | src/data_processor.py:40-58 | Each chunk is its sentence group joined by single spaces and has the group's total word count. The groups, flattened, are exactly the input sentences in order. There are no chunks exactly when there are no sentences. A chunk over the limit holds at most one sentence. The first sentence of each chunk would not have fitted in the chunk before it. A chunk's sentence group is empty exactly when it is chunk 0 and the first sentence alone is over the limit; then chunk 0 is the empty string. |
| Chunker.WordCountJoin | src/data_processor.py:48-57 | The word count of sentences joined by spaces is the sum of their word counts, so `current_length` is the real word count of the chunk. |
| Chunker.PackClose | src/data_processor.py:52-55 | Closing the current chunk when a sentence does not fit, and starting the next chunk with that sentence, keeps the packing invariant. |
| Chunker.ChunkIdsDistinct | src/data_processor.py:78 | Different chunk indices give different `chunk-i` ids. |
| Chunker.BuildRecords | src/data_processor.py:74-81 | There is one record per chunk, in order: record i has id `chunk-i`, text chunk i and the data path as source. The ids are pairwise distinct. |
| Chunker.Batches | src/data_processor.py:82-85 | The batches are the consecutive slices `records[100b .. min(100b+100, n)]`. Each batch is non-empty and at most 100 long, and every batch but the last is exactly 100. Together they are the record list. |
| Chunker.ProcessAndUpsert | src/data_processor.py:60-86 | The chunks are exactly `chunk_text`'s greedy packing of the sentences with its default limit of 250 words, with every clause of `ChunkText`. The batches handed to the upsert hold, in order, one record `chunk-i` per chunk, with the batch sizes above. |
| KgBuilder.NormalizeIsNodeKey | src/kg_builder.py:15-16 | A normalised string has no upper-case letter, no "." and no ",". |
| KgBuilder.NormalizeFixedPoint | src/kg_builder.py:15-16 | A string that is lower-case, free of "." and ",", and has no surrounding whitespace is left unchanged. |
| KgBuilder.NormalizeNotIdempotent | src/kg_builder.py:16 | `normalize("a .")` is `"a "`, and normalising that again gives `"a"`. |
| KgBuilder.Paragraphs | src/kg_builder.py:50 | No paragraph is empty or has surrounding whitespace. |
| KgBuilder.ParagraphsOfBlank | src/kg_builder.py:50 | A blank text has no paragraphs. |
| KgBuilder.ParagraphsOfOne | src/kg_builder.py:50 | A non-blank text without a blank-line break is one paragraph, stripped. |
| KgBuilder.WithDepMembers | src/kg_builder.py:27-28 | The dependent filter keeps exactly the dependents whose label is in the set. |
| KgBuilder.VerbTripleCondition | src/kg_builder.py:25-33 | A token yields a triple exactly when it is a VERB with a subject dependent on its left and an object dependent on its right. The triple's predicate is the verb's lower-cased lemma. |
| KgBuilder.EntityTriples | src/kg_builder.py:35-36 | There is one `(text.lower(), "is_a", label.lower())` triple per entity span, in span order. |
| KgBuilder.SentenceTriplesLayout | src/kg_builder.py:22-36 | A sentence's triples are all its verb triples followed by exactly one `is_a` triple per entity span. |
| KgBuilder.AppendSentenceTriples | src/kg_builder.py:25-36 | The token and entity loops append the sentence's verb triples, then its entity triples. |
| KgBuilder.ExtractTriples | src/kg_builder.py:18-38 | The triples of a parsed paragraph, sentence by sentence, in order. |
| KgBuilder.CanonicalRelationLowercase | src/kg_builder.py:57-59 | A canonical relation never contains an upper-case letter. |
| KgBuilder.CanonicalRelationPlain | src/kg_builder.py:57-59 | A label containing none of "has symptom", "treated by" or "treated with" is only lower-cased. |
| KgBuilder.DiGraph.AddNode | src/kg_builder.py:61-62 | Adds the node to the node set; the edges are unchanged. |
| KgBuilder.DiGraph.AddEdge | src/kg_builder.py:63 | Adds both endpoints and sets the relation of the one edge for the ordered pair. |
| KgBuilder.AddIfAccepted | src/kg_builder.py:60-63 | The graph changes only for a fact whose two endpoints are non-empty and different. It then changes as `Insert` says. |
| KgBuilder.BuildGraph | src/kg_builder.py:55-63 | The graph built in place equals `GraphOf` of the normalised, canonicalised triples, inserted in order. |
| KgBuilder.CollectTriples | src/kg_builder.py:51-53 | The extraction loop gathers each paragraph's triples in paragraph order. |
| KgBuilder.BuildKnowledgeGraph | src/kg_builder.py:40-63 | The graph is the one the building loop makes from the triples of the text's paragraphs. |
| KgBuilder.BuiltGraphShape | src/kg_builder.py:60-63 | A built graph has no self-loops, and every edge joins two of its nodes. Every node is a non-empty normalised entity on some edge. |
| KgBuilder.GraphOfEdges | src/kg_builder.py:60-63 | An ordered pair has an edge exactly when some accepted fact joins it. |
| KgBuilder.GraphOfNodes | src/kg_builder.py:60-62 | The nodes are exactly the endpoints of the accepted facts. |
| KgBuilder.GraphOfLastWins | src/kg_builder.py:41-63 | There is one edge per ordered pair. It carries the relation of the last accepted fact for that pair. |
| KgBuilder.GraphOfEdgeCount | src/kg_builder.py:55-63 | There are never more edges than accepted facts. |
| KgBuilder.BuiltRelationsLowercase | src/kg_builder.py:57-63 | Every relation stored in a built graph is lower-case. |
| KgBuilder.BlankCorpusEmptyGraph | src/kg_builder.py:50-63 | A blank corpus builds a graph with no nodes and no edges. |
| Retriever.AddWithSynonyms | src/retriever.py:45-48 | One step of the expansion loop adds the entity, and its synonyms when it is a key of the table. |
| Retriever.Expand | src/retriever.py:44-49 | The expanded set is the entities plus the synonyms of those entities that are keys of the table, and nothing else. |
| Retriever.SynonymsAreNotKeys | src/retriever.py:21-27 | No synonym in the table is itself a key. |
| Retriever.ExpandedOneLevel | src/retriever.py:21-49 | With this table, expanding an expanded set adds nothing, so one level of expansion is complete. |
| Retriever.ExpandedWithoutKeys | src/retriever.py:44-49 | A set with no key of the table is left unchanged. |
| Retriever.OutgoingLines | src/retriever.py:56-61 | Each allowed edge leaving the entity is reported exactly once, as "- Src relation Dst". No other edge is reported. |
| Retriever.IncomingLines | src/retriever.py:63-68 | Each allowed edge entering the entity is reported exactly once, still read source first. No other edge is reported. |
| Retriever.EntityLines | src/retriever.py:55-68 | An entity that is a node reports its allowed out-edges and in-edges. A non-node reports nothing. |
| Retriever.CollectLines | src/retriever.py:54-68 | Over all entities, each allowed edge is reported once for each of its endpoints in the set, and every line is its edge's fact line. |
| Retriever.RetrieveGraph | src/retriever.py:39-70 | The result is the fact lines joined by newlines, or the sentinel when there are none. Each allowed edge appears once per endpoint in the expanded candidates. The sentinel is returned exactly when no allowed edge touches them. |
| Retriever.HitsAllowed | src/retriever.py:52-67 | Every reported edge has an allow-listed relation (lower-cased) and an endpoint among the entities. |
| Retriever.TouchingEdgeReported | src/retriever.py:55-68 | Every allowed edge touching an entity produces the line "- " + cap(src) + " " + relation + " " + cap(dst), with the relation in its stored case. |
| Retriever.NonNodesContributeNothing | src/retriever.py:55 | Entities that are not nodes of the graph change no count. |
| Retriever.BothEndpointsTwice | src/retriever.py:54-68 | An allowed edge whose two endpoints are both entities is reported twice. |
| Retriever.BuiltGraphIsDiGraph | src/retriever.py:54-68 | Every graph the builder makes has each edge joining two of its nodes, so the neighbour and predecessor lookups apply to it. |
| Retriever.AllowedOnBuiltGraph | src/retriever.py:60 | On a graph the builder made, the lower-cased allow-list check is plain membership of the stored relation. |
| Retriever.RenderedLinesAreNotSentinel | src/retriever.py:70 | Joined fact lines never equal the sentinel. |
| Retriever.SentinelExactlyWhenNothingFound | src/retriever.py:70 | The rendered result is the sentinel exactly when no allowed edge touches the entities. |
| Retriever.VectorTexts | src/retriever.py:37 | There is one text per match, in match order. Each is the match's `text` metadata, or "" when that is missing. |
| Retriever.VectorTextsMissing | src/retriever.py:37 | A match without a text yields "". |
| Retriever.HybridRetrieve | src/retriever.py:72-75 | Returns the vector texts and the graph result unchanged. |
| Generator.Bulleted | src/generator.py:36 | There is one line per graph item, in order, each being "- " + item. |
| Generator.GraphTextEmpty | src/generator.py:36-37 | The graph text is empty exactly when there are no items, and the section is then "No relevant medical knowledge found.". |
| Generator.GraphTextLines | src/generator.py:36 | For items without newlines, splitting the graph text on "\n" gives back the bullet lines. |
| Generator.PromptEndsWithMarker | src/generator.py:39-45 | The prompt ends with a blank line followed by "Answer:". |
| Generator.ExtractAnswer | src/generator.py:56 | The extracted answer has no surrounding whitespace. |
| Generator.ExtractAnswerAfterLastMarker | src/generator.py:56 | With a marker in the text, the answer is the stripped rest after an occurrence of "Answer:" that is followed by no other. |
| Generator.ExtractAnswerHasNoMarker | src/generator.py:56 | The extracted answer never contains "Answer:". |
| Generator.ExtractAnswerOfEcho | src/generator.py:39-56 | When the generated text is the prompt followed by a completion without a marker, the answer is that completion stripped. |
| Generator.FallbackWords | src/generator.py:59 | The fallback sentence has at least three words. |
| Generator.FinalAnswer | src/generator.py:55-60 | The reply is never empty and has at least three words. It is the extracted answer or the fallback. |
| Generator.FinalAnswerChoice | src/generator.py:58-60 | An answer of three or more words is returned unchanged; a shorter one is replaced by the fallback. |
| Generator.GenerateResponse | src/generator.py:29-60 | Whatever the model generates, the response is non-empty and has at least three words. |

## Where the code departs from the system's design notes

The system's design notes state each of the expectations below; the model follows the code in each case.

- The design notes call `normalize` idempotent, but the code is not. It strips before deleting "." and ",", so a deletion can expose whitespace that a second pass removes. `KgBuilder.NormalizeNotIdempotent` exhibits this.
- The design notes call the graph a multigraph with parallel edges per relation. The code builds a `networkx.DiGraph` (src/kg_builder.py:41), where a later `add_edge` for the same ordered pair overwrites the relation. `KgBuilder.GraphOfLastWins` and `KgBuilder.GraphOfEdgeCount` state that behaviour.
- src/data_processor.py:81 closes the record with `}))`, one parenthesis too many, so the file does not parse as written. The model follows the evident intent: one `append` per chunk.
- Verb predicates come from `token.lemma_`, a single token, so the multi-word rewrites of `CanonicalRelation` ("has symptom", "treated by", "treated with") cannot fire on them. They are still modelled as written.

## Left out

- spaCy parsing (src/kg_builder.py:7-11, 19, 23; src/retriever.py:8-12, 40-42) is an external model. The parse is an input: `Sentence`/`Token`/`Dependent`/`Entity` values, a `parse` function per paragraph, and the query's mention texts.
- NLTK sentence splitting (src/data_processor.py:3-17, 42) is external. `ChunkText` starts from the sentence list.
- Sentence embeddings, the Pinecone index, its query with `top_k`, and the lazy singletons (src/data_processor.py:20-38, 76, 85; src/retriever.py:16-18, 30-36) are network and floating-point code. The index's answer is an input (a sequence of `Match`), and records carry no vector.
- File reads and writes and the node-link JSON save/load (src/kg_builder.py:43-48, 65-75; src/data_processor.py:67-68) are I/O. The missing-corpus early return is I/O as well. The JSON round trip belongs to networkx.
- The language-model pipeline, its sampling settings and the tokenizer's `truncate` (src/generator.py:7-27, 47-54) are external. `truncate` and `generate` are function parameters of `GenerateResponse`.
- Unicode semantics of `lower`, `strip`, `capitalize` and `split` are not modelled. Only ASCII letters change case, and whitespace is Python's ASCII whitespace set.
- The `isinstance(data, dict)` branch (src/retriever.py:59, 66) is left out. With the builder's `DiGraph`, the edge data holds the single attribute `relation`, so each edge is modelled as its relation string, giving one line per edge and side.
- Retriever.RetrieveGraph: the `max_hops` parameter is not modelled, because the code never reads it. The lookup is one hop whatever its value.
- Retriever.RetrieveGraph: the order of the lines is not stated, because it comes from iterating Python sets.
- Printing and progress bars are left out.

/**
 * Prompt construction and answer post-processing around the language model
 * (src/generator.py).
 *
 * The model and its tokenizer are not part of this model: the tokenizer's
 * `truncate` and the text generation are function parameters.
 */
module Generator {
  import opened Text

  // ---------------------------------------------------------------------------
  // The graph section (lines 36-37)

  /** The graph section when the graph lookup produced nothing. */
  const NoKnowledge := "No relevant medical knowledge found."

  /** Each graph item as a bullet line. */
  function Bulleted(items: seq<string>): (lines: seq<string>)
    ensures |lines| == |items|
    ensures forall i :: 0 <= i < |items| ==> lines[i] == "- " + items[i]
  {
    if items == [] then [] else ["- " + items[0]] + Bulleted(items[1..])
  }

  /** The graph text before truncation: the bullet lines joined by newlines, or nothing. */
  function GraphText(items: seq<string>): string {
    if items == [] then "" else Join(Bulleted(items), "\n")
  }

  /** The graph section: the truncated graph text, or the placeholder when there is none. */
  function GraphSection(items: seq<string>, truncate: (string, nat) -> string): string {
    var text := GraphText(items);
    if text != [] then truncate(text, 100) else NoKnowledge
  }

  /** The graph text is empty exactly when there are no items; the section is then the placeholder. */
  lemma GraphTextEmpty(items: seq<string>, truncate: (string, nat) -> string)
    ensures GraphText(items) == [] <==> items == []
    ensures items == [] ==> GraphSection(items, truncate) == NoKnowledge
  {
    if items != [] {
      JoinStartsWithBullet(Bulleted(items));
    }
  }

  lemma {:induction false} JoinStartsWithBullet(lines: seq<string>)
    requires lines != [] && |lines[0]| >= 2 && lines[0][..2] == "- "
    ensures |Join(lines, "\n")| >= 2 && Join(lines, "\n")[..2] == "- "
  {
    if |lines| > 1 {
      assert Join(lines, "\n") == lines[0] + ("\n" + Join(lines[1..], "\n"));
    }
  }

  /** Items without newlines can be read back line by line from the graph text. */
  lemma GraphTextLines(items: seq<string>)
    requires items != [] && forall i :: 0 <= i < |items| ==> '\n' !in items[i]
    ensures SplitOn(GraphText(items), "\n") == Bulleted(items)
  {
    var lines := Bulleted(items);
    forall i | 0 <= i < |lines| ensures '\n' !in lines[i] {
      assert lines[i] == "- " + items[i];
    }
    SplitOnJoin(lines, '\n');
  }

  // ---------------------------------------------------------------------------
  // The prompt (lines 33-34, 39-45)

  /** What precedes the answer in the prompt: the answer marker follows it. */
  const AnswerMarker := "Answer:"

  /** The prompt up to the answer marker. */
  function PromptHead(context: string, graph: string, query: string): string {
    "You are a medical expert. Use the info below to answer clearly.\n\n"
    + "Documents:\n" + context + "\n\n"
    + "Knowledge Graph:\n" + graph + "\n\n"
    + "Question: " + query + "\n\n"
  }

  /** The prompt: the instructions, the documents, the graph section and the question, then the marker. */
  function Prompt(context: string, graph: string, query: string): string {
    PromptHead(context, graph, query) + AnswerMarker
  }

  /** The prompt ends with the answer marker, right after a blank line. */
  lemma PromptEndsWithMarker(context: string, graph: string, query: string)
    ensures var p := Prompt(context, graph, query);
      |p| >= 9 && p[|p| - 9..] == "\n\n" + AnswerMarker
  {
    var head := PromptHead(context, graph, query);
    var front := "You are a medical expert. Use the info below to answer clearly.\n\n"
      + "Documents:\n" + context + "\n\n"
      + "Knowledge Graph:\n" + graph + "\n\n"
      + "Question: " + query;
    assert head == front + "\n\n";
    assert Prompt(context, graph, query) == front + ("\n\n" + AnswerMarker);
  }

  // ---------------------------------------------------------------------------
  // Answer extraction and fallback (lines 55-60)

  /** The answer: the stripped text after the last marker, or the whole text stripped. */
  function ExtractAnswer(text: string): (answer: string)
    ensures IsStripped(answer)
  {
    if Contains(text, AnswerMarker) then Strip(Last(SplitOn(text, AnswerMarker))) else Strip(text)
  }

  /**
   * With a marker in the text, the answer is the stripped rest after an
   * occurrence of the marker, and the marker does not occur in that rest.
   */
  lemma ExtractAnswerAfterLastMarker(text: string) returns (k: nat)
    requires Contains(text, AnswerMarker)
    ensures OccursAt(text, AnswerMarker, k)
    ensures !Contains(text[k + |AnswerMarker|..], AnswerMarker)
    ensures ExtractAnswer(text) == Strip(text[k + |AnswerMarker|..])
  {
    k := LastSeparator(text, AnswerMarker);
  }

  /** The answer never contains the marker. */
  lemma ExtractAnswerHasNoMarker(text: string)
    ensures !Contains(ExtractAnswer(text), AnswerMarker)
  {
    if Contains(text, AnswerMarker) {
      var parts := SplitOn(text, AnswerMarker);
      SplitOnPieces(text, AnswerMarker, |parts| - 1);
      StripKeepsAbsence(Last(parts), AnswerMarker);
    } else {
      StripKeepsAbsence(text, AnswerMarker);
    }
  }

  /** No occurrence of the marker overlaps the end of a line. */
  lemma NoMarkerAcrossNewline(s: string, k: nat)
    requires 1 <= k <= |s| && s[k - 1] == '\n'
    ensures NoOccurrenceBetween(s, AnswerMarker, k - |AnswerMarker|, k)
  {
    forall j | k - |AnswerMarker| < j < k ensures !OccursAt(s, AnswerMarker, j) {
      if 0 <= j && j + |AnswerMarker| <= |s| {
        assert s[j..j + |AnswerMarker|][k - 1 - j] == '\n';
      }
    }
  }

  /** Occurrences of the marker cannot overlap: its first letter does not recur in it. */
  lemma NoMarkerInsideMarker(s: string, k: nat)
    requires OccursAt(s, AnswerMarker, k)
    ensures NoOccurrenceBetween(s, AnswerMarker, k, k + |AnswerMarker|)
  {
    forall j | k < j < k + |AnswerMarker| ensures !OccursAt(s, AnswerMarker, j) {
      if j + |AnswerMarker| <= |s| {
        assert s[j..j + |AnswerMarker|][0] == s[k..k + |AnswerMarker|][j - k];
      }
    }
  }

  /**
   * A generation that echoes the prompt before its completion yields the
   * stripped completion, provided the completion has no marker of its own.
   */
  lemma ExtractAnswerOfEcho(context: string, graph: string, query: string, completion: string)
    requires !Contains(completion, AnswerMarker)
    ensures ExtractAnswer(Prompt(context, graph, query) + completion) == Strip(completion)
  {
    var p := Prompt(context, graph, query);
    var s := p + completion;
    var k := |p| - |AnswerMarker|;
    PromptEndsWithMarker(context, graph, query);
    assert s[k..k + |AnswerMarker|] == p[|p| - 9..][2..];
    assert s[k - 1] == p[|p| - 9..][1];
    NoMarkerAcrossNewline(s, k);
    NoMarkerInsideMarker(s, k);
    assert s[k + |AnswerMarker|..] == completion;
    LastPieceAfter(s, AnswerMarker, k);
    assert Contains(s, AnswerMarker);
  }

  /** The reply used when the extracted answer is too short. */
  const Fallback := "Symptoms may include fatigue, nausea, and other physiological changes. Consult a healthcare provider for a full diagnosis."

  /**
   * A string with a space before position `k` where three words start,
   * the first two each followed by a single space, has at least three words.
   */
  lemma ThreeWordsAfter(s: string, k: nat, i: nat, j: nat)
    requires 0 < k && 0 < i && i + 1 < j && k + j + 1 < |s|
    requires s[k - 1] == ' ' && s[k + i] == ' ' && s[k + j] == ' '
    requires !IsSpace(s[k]) && !IsSpace(s[k + i + 1]) && !IsSpace(s[k + j + 1])
    ensures WordCount(s) >= 3
  {
    var tail := s[k..];
    var rest := tail[i + 1..];
    assert rest[j - i - 1] == s[k + j];
    WordsAtSpace(tail, i);
    WordsAtSpace(rest, j - i - 1);
    WordCountPositive(tail[..i]);
    WordCountPositive(rest[..j - i - 1]);
    WordCountPositive(rest[j - i..]);
    WordsAtSpace(s, k - 1);
  }

  /** The fallback itself has at least three words; its last three, "a full diagnosis.", suffice. */
  lemma FallbackWords()
    ensures WordCount(Fallback) >= 3
  {
    ThreeWordsAfter(Fallback, |Fallback| - 17, 1, 6);
  }

  /** The reply: the extracted answer when it has at least three words, the fallback otherwise. */
  function FinalAnswer(text: string): (reply: string)
    ensures reply != [] && WordCount(reply) >= 3
    ensures reply == ExtractAnswer(text) || reply == Fallback
  {
    var answer := ExtractAnswer(text);
    if answer == [] || WordCount(answer) < 3 then
      FallbackWords();
      Fallback
    else
      answer
  }

  /** An answer of at least three words is returned unchanged; a shorter one is replaced. */
  lemma FinalAnswerChoice(text: string)
    ensures WordCount(ExtractAnswer(text)) >= 3 ==> FinalAnswer(text) == ExtractAnswer(text)
    ensures WordCount(ExtractAnswer(text)) < 3 ==> FinalAnswer(text) == Fallback
  {
  }

  /**
   * `generate_response`: the documents joined and truncated to 300 tokens,
   * the graph section, the prompt, the model's text, and the reply drawn from it.
   */
  function GenerateResponse(
    query: string, retrievedDocs: seq<string>, graphContext: seq<string>,
    truncate: (string, nat) -> string, generate: string -> string): (reply: string)
    ensures reply != [] && WordCount(reply) >= 3
  {
    var context := truncate(Join(retrievedDocs, "\n"), 300);
    var graph := GraphSection(graphContext, truncate);
    FinalAnswer(generate(Prompt(context, graph, query)))
  }
}

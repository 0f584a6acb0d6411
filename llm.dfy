/** LLMService (app/core/rag.py): the context block handed to the model, the
    prompt template, and the answer-or-error-message result of one generation.
    The model itself is a function parameter from prompt to outcome. */
module Llm {
  import opened Values

  const Separator: string := "\n---\n"

  /** The label a chunk's block is headed with: its `doc_id`, or `doc_<position>`. */
  function DocLabel(i: nat, metadata: Metadata): string
  {
    if "doc_id" in metadata then ValueToString(metadata["doc_id"]) else "doc_" + NatToString(i)
  }

  /** The file a chunk's block names: its `source`, or `Unknown`. */
  function SourceLabel(metadata: Metadata): string
  {
    if "source" in metadata then ValueToString(metadata["source"]) else "Unknown"
  }

  /** The block for the chunk at position `i`. */
  function Block(i: nat, c: ContextChunk): string
  {
    "[Source ID: " + DocLabel(i, c.metadata) + ", File: " + SourceLabel(c.metadata) + "]\n" + c.text + "\n"
  }

  function Blocks(chunks: seq<ContextChunk>): (bs: seq<string>)
    ensures |bs| == |chunks|
    ensures forall i :: 0 <= i < |chunks| ==> bs[i] == Block(i, chunks[i])
  {
    seq(|chunks|, i requires 0 <= i < |chunks| => Block(i, chunks[i]))
  }

  /** What `_format_context` returns. */
  function Formatted(chunks: seq<ContextChunk>): string
  {
    Join(Separator, Blocks(chunks))
  }

  /** `LLMService._format_context`: one block per chunk, built in a loop, then joined. */
  method FormatContext(chunks: seq<ContextChunk>) returns (context: string)
    ensures context == Formatted(chunks)
  {
    var parts: seq<string> := [];
    var i := 0;
    while i < |chunks|
      invariant 0 <= i <= |chunks|
      invariant |parts| == i
      invariant forall j :: 0 <= j < i ==> parts[j] == Block(j, chunks[j])
    {
      parts := parts + [Block(i, chunks[i])];
      i := i + 1;
    }
    assert parts == Blocks(chunks);
    context := Join(Separator, parts);
  }

  /** The formatted context is the blocks of the chunks, in order, separated by
      `\n---\n`. */
  lemma {:induction false} FormattedLayout(chunks: seq<ContextChunk>, i: nat)
    requires i < |chunks|
    ensures var f := Formatted(chunks); var o := Offset(Separator, Blocks(chunks), i);
      var b := Block(i, chunks[i]);
      && o + |b| <= |f|
      && f[o..o + |b|] == b
      && (i + 1 < |chunks| ==> o + |b| + |Separator| <= |f| && f[o + |b|..o + |b| + |Separator|] == Separator)
  {
    var bs := Blocks(chunks);
    JoinAt(Separator, bs, i);
    assert bs[i] == Block(i, chunks[i]);
  }

  /** No chunks, no context; otherwise the context is never empty. */
  lemma {:induction false} FormattedEmptyIff(chunks: seq<ContextChunk>)
    ensures Formatted(chunks) == "" <==> chunks == []
  {
    if chunks != [] {
      JoinAt(Separator, Blocks(chunks), 0);
      assert |Block(0, chunks[0])| > 0;
    }
  }

  /** Chunks without a `doc_id` at different positions get different labels. */
  lemma {:induction false} DefaultLabelsDistinct(i: nat, j: nat, m1: Metadata, m2: Metadata)
    requires "doc_id" !in m1 && "doc_id" !in m2 && i != j
    ensures DocLabel(i, m1) != DocLabel(j, m2)
  {
    if DocLabel(i, m1) == DocLabel(j, m2) {
      var a := DocLabel(i, m1);
      assert NatToString(i) == a[4..] == NatToString(j);
      NatToStringInjective(i, j);
    }
  }

  const PromptHead: string :=
    "You are a helpful AI assistant that answers questions based ONLY on the provided context.\n\n"
    + "CRITICAL RULES:\n"
    + "1. ONLY use information from the context provided below\n"
    + "2. If the answer is not in the context, clearly state \"I cannot answer this question based on the provided context\"\n"
    + "3. ALWAYS cite the source document ID for each piece of information you use\n"
    + "4. DO NOT use any external knowledge or make assumptions\n"
    + "5. Be concise and accurate in your responses\n\n"
    + "Context Sources:\n"

  const PromptMiddle: string := "\n\nQuestion: "

  const PromptTail: string :=
    "\n\nInstructions:\n"
    + "- Answer the question using ONLY the information from the context above\n"
    + "- Cite sources using [Source: doc_id] format\n"
    + "- If the context doesn't contain relevant information, explicitly say so\n"
    + "- Provide a clear, well-structured answer\n\n"
    + "Answer:"

  /** `system_prompt.format(context=..., question=...)`: the template with the two
      placeholders filled in verbatim. */
  function Prompt(context: string, question: string): string
  {
    PromptHead + context + PromptMiddle + question + PromptTail
  }

  lemma {:induction false} FillRecovers(head: string, context: string, middle: string, question: string, tail: string)
    ensures var p := head + context + middle + question + tail;
      var q0 := |head| + |context| + |middle|;
      && |p| == q0 + |question| + |tail|
      && p[|head|..|head| + |context|] == context
      && p[q0..q0 + |question|] == question
  {
    var p := head + context + middle + question + tail;
    assert p == (head + context) + (middle + question + tail);
    assert p == (head + context + middle) + (question + tail);
  }

  /** The context and the question can be read back from the prompt at places
      fixed by the context's length. */
  lemma {:induction false} PromptRecovers(context: string, question: string)
    ensures var p := Prompt(context, question);
      var q0 := |PromptHead| + |context| + |PromptMiddle|;
      && |p| == q0 + |question| + |PromptTail|
      && p[|PromptHead|..|PromptHead| + |context|] == context
      && p[q0..q0 + |question|] == question
  {
    FillRecovers(PromptHead, context, PromptMiddle, question, PromptTail);
  }

  /** Two prompts built from contexts of the same length are equal only when the
      contexts and the questions are. */
  lemma {:induction false} PromptInjective(c1: string, q1: string, c2: string, q2: string)
    requires |c1| == |c2| && Prompt(c1, q1) == Prompt(c2, q2)
    ensures c1 == c2 && q1 == q2
  {
    PromptRecovers(c1, q1);
    PromptRecovers(c2, q2);
  }

  /** What one call to the model gives: its text, or the message of the exception it raised. */
  datatype LlmOutcome = Generated(text: string) | LlmFailed(message: string)

  const ErrorPrefix: string := "Error generating response: "

  /** `LLMService.generate_answer`: the model's text, or the error message; it never raises. */
  function GenerateAnswer(llm: string -> LlmOutcome, question: string, chunks: seq<ContextChunk>): (answer: string)
  {
    match llm(Prompt(Formatted(chunks), question))
    case Generated(text) => text
    case LlmFailed(message) => ErrorPrefix + message
  }

  /** The answer is exactly what the model produced for the prompt built from the
      question and the formatted chunks, or the error prefix and the failure's message;
      when the model's own text does not look like the error, the two cases are told
      apart by the prefix. */
  lemma {:induction false} GenerateAnswerCases(llm: string -> LlmOutcome, question: string, chunks: seq<ContextChunk>)
    ensures var outcome := llm(Prompt(Formatted(chunks), question));
      var answer := GenerateAnswer(llm, question, chunks);
      && (outcome.Generated? ==> answer == outcome.text)
      && (outcome.LlmFailed? ==> answer == ErrorPrefix + outcome.message)
      && (outcome.Generated? && !HasPrefix(outcome.text, ErrorPrefix) ==> !HasPrefix(answer, ErrorPrefix))
      && (outcome.LlmFailed? ==> HasPrefix(answer, ErrorPrefix))
  {
    var outcome := llm(Prompt(Formatted(chunks), question));
    if outcome.LlmFailed? {
      assert (ErrorPrefix + outcome.message)[..|ErrorPrefix|] == ErrorPrefix;
    }
  }

  predicate HasPrefix(s: string, p: string)
  {
    |p| <= |s| && s[..|p|] == p
  }
}

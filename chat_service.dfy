/**
 * `ask_question`: answer a question from the chunks the vector search
 * retrieved. The retrieval result (documents, metadata and distances of the
 * nearest chunks, nearest first) is an input; the language model is an
 * object whose replies are a fixed function of the prompt and which records
 * every prompt it is sent.
 */
module ChatService {
  import opened Options
  import Text
  import opened VectorIndex

  /** One cited chunk: where it came from and how far it was from the question. */
  datatype Reference = Reference(source: string, chunk: int, distance: real)

  datatype ChatResult = ChatResult(answer: string, references: seq<Reference>)

  datatype ChatOutcome =
    | Answered(result: ChatResult)
      /** The `KeyError`/`TypeError` raised when a retrieved record lacks `source` or `chunk`. */
    | MissingMetadata

  /** The fixed answer when the search returns no documents. */
  const NotFoundAnswer := "申し訳ございません。関連する資料が見つかりませんでした。"

  const BlockSeparator := "\n\n---\n\n"

  /** The grounding instructions that open every prompt. */
  const Instructions :=
    "あなたは社内業務マニュアル検索アシスタントです。\n"
    + "必ず提供されたCONTEXTに基づいて答えてください。\n"
    + "CONTEXTに根拠がないことは「資料からは判断できません」と言ってください。\n\n"

  const ContextLabel := "CONTEXT:\n"
  const QuestionLabel := "\n\nQUESTION:\n"

  /** Whether `m['source']` and `m['chunk']` can both be read. */
  predicate HasKeys(m: Option<Metadata>) {
    m.Some? && m.value.source.Some? && m.value.chunk.Some?
  }

  /** `[source=... chunk=...]`, the first line of a context block. */
  function Header(m: Option<Metadata>): string
    requires HasKeys(m)
  {
    "[source=" + m.value.source.value + " chunk=" + Text.IntToString(m.value.chunk.value) + "]"
  }

  /** One context block: the header line, then the retrieved document. */
  function ContextBlock(d: string, m: Option<Metadata>): (b: string)
    requires HasKeys(m)
    ensures |b| == |Header(m)| + 1 + |d|
    ensures b[..|Header(m)|] == Header(m) && b[|Header(m)|] == '\n'
    ensures b[|Header(m)| + 1..] == d
  {
    Header(m) + "\n" + d
  }

  /** Every metadata `zip(docs, metas)` pairs with a document carries both keys. */
  predicate BlocksReadable(docs: seq<string>, metas: seq<Option<Metadata>>) {
    forall i :: 0 <= i < Text.Min(|docs|, |metas|) ==> HasKeys(metas[i])
  }

  /** The blocks of the context, one per `zip(docs, metas)` pair, in retrieval order. */
  function ContextBlocks(docs: seq<string>, metas: seq<Option<Metadata>>): (bs: seq<string>)
    requires BlocksReadable(docs, metas)
    ensures |bs| == Text.Min(|docs|, |metas|)
    ensures forall i :: 0 <= i < |bs| ==> bs[i] == ContextBlock(docs[i], metas[i])
  {
    seq(Text.Min(|docs|, |metas|), i requires 0 <= i < Text.Min(|docs|, |metas|) => ContextBlock(docs[i], metas[i]))
  }

  function Context(docs: seq<string>, metas: seq<Option<Metadata>>): string
    requires BlocksReadable(docs, metas)
  {
    Text.Join(ContextBlocks(docs, metas), BlockSeparator)
  }

  /** The prompt: instructions, the context, then the question. */
  function Prompt(context: string, question: string): string {
    Instructions + ContextLabel + context + QuestionLabel + question + "\n"
  }

  /** `(resp.output_text or "").strip()`: a missing reply becomes the empty answer. */
  function AnswerText(output: Option<string>): (a: string)
    ensures output.None? ==> a == []
    ensures a != [] ==> !Text.IsSpace(a[0]) && !Text.IsSpace(a[|a| - 1])
    ensures output.Some? ==> a == Text.Strip(output.value)
  {
    Text.Strip(if output.Some? then output.value else "")
  }

  /** Every metadata `zip(metas, distances)` pairs with a distance carries both keys. */
  predicate ReferencesReadable(metas: seq<Option<Metadata>>, distances: seq<real>) {
    forall i :: 0 <= i < Text.Min(|metas|, |distances|) ==> HasKeys(metas[i])
  }

  /** One reference per `zip(metas, distances)` pair, in retrieval order, duplicates kept. */
  function References(metas: seq<Option<Metadata>>, distances: seq<real>): (refs: seq<Reference>)
    requires ReferencesReadable(metas, distances)
    ensures |refs| == Text.Min(|metas|, |distances|)
    ensures forall i :: 0 <= i < |refs| ==>
              refs[i] == Reference(metas[i].value.source.value, metas[i].value.chunk.value, distances[i])
  {
    seq(Text.Min(|metas|, |distances|), i requires 0 <= i < Text.Min(|metas|, |distances|) =>
      Reference(metas[i].value.source.value, metas[i].value.chunk.value, distances[i]))
  }

  /** What `ask_question` returns or raises for a retrieval result, given the model's replies. */
  function Ask(question: string, docs: seq<string>, metas: seq<Option<Metadata>>, distances: seq<real>,
               reply: string -> Option<string>): ChatOutcome
  {
    if docs == [] then Answered(ChatResult(NotFoundAnswer, []))
    else if !BlocksReadable(docs, metas) || !ReferencesReadable(metas, distances) then MissingMetadata
    else
      var output := reply(Prompt(Context(docs, metas), question));
      Answered(ChatResult(AnswerText(output), References(metas, distances)))
  }

  /** The prompts `ask_question` sends: none for an empty result or an unreadable block, else one. */
  function PromptsSent(question: string, docs: seq<string>, metas: seq<Option<Metadata>>): seq<string> {
    if docs == [] || !BlocksReadable(docs, metas) then []
    else [Prompt(Context(docs, metas), question)]
  }

  /** The language model: a fixed reply per prompt, and the prompts sent so far. */
  class LanguageModel {
    const reply: string -> Option<string>
    var prompts: seq<string>

    constructor (reply: string -> Option<string>)
      ensures this.reply == reply && prompts == []
    {
      this.reply := reply;
      prompts := [];
    }

    /** `client.responses.create(input=prompt).output_text` */
    method Respond(prompt: string) returns (output: Option<string>)
      modifies this
      ensures prompts == old(prompts) + [prompt]
      ensures output == reply(prompt)
    {
      prompts := prompts + [prompt];
      output := reply(prompt);
    }
  }

  /**
   * `ask_question` after the search: build the context block by block, ask
   * the model once, then list the references.
   */
  method AskQuestion(llm: LanguageModel, question: string, docs: seq<string>,
                     metas: seq<Option<Metadata>>, distances: seq<real>) returns (outcome: ChatOutcome)
    modifies llm
    ensures outcome == Ask(question, docs, metas, distances, llm.reply)
    ensures llm.prompts == old(llm.prompts) + PromptsSent(question, docs, metas)
    ensures docs == [] ==> outcome == Answered(ChatResult(NotFoundAnswer, [])) && llm.prompts == old(llm.prompts)
  {
    if docs == [] {
      return Answered(ChatResult(NotFoundAnswer, []));
    }
    var blocks: seq<string> := [];
    var n := Text.Min(|docs|, |metas|);
    for i := 0 to n
      invariant |blocks| == i
      invariant forall j :: 0 <= j < i ==> HasKeys(metas[j]) && blocks[j] == ContextBlock(docs[j], metas[j])
    {
      if !HasKeys(metas[i]) {
        return MissingMetadata;
      }
      blocks := blocks + [ContextBlock(docs[i], metas[i])];
    }
    assert blocks == ContextBlocks(docs, metas);
    var context := Text.Join(blocks, BlockSeparator);
    var output := llm.Respond(Prompt(context, question));
    if !ReferencesReadable(metas, distances) {
      return MissingMetadata;
    }
    return Answered(ChatResult(AnswerText(output), References(metas, distances)));
  }
}

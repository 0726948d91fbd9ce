/**
 * What `ask_question` promises about the prompt it builds and the result it
 * returns: blocks in retrieval order, every retrieved document verbatim in
 * the prompt, the question last, and one reference per result.
 */
module ChatProperties {
  import opened Options
  import Text
  import opened VectorIndex
  import opened ChatService

  /** A later part of a joined string starts after the earlier part and a separator. */
  lemma {:induction false} OffsetsIncrease(parts: seq<string>, sep: string, i: nat, j: nat)
    requires i < j < |parts|
    ensures Text.Offset(parts, sep, i) + |parts[i]| + |sep| <= Text.Offset(parts, sep, j)
    decreases j - i
  {
    Text.JoinPartAt(parts, sep, j - 1);
    if i < j - 1 {
      OffsetsIncrease(parts, sep, i, j - 1);
    }
  }

  /** A piece of a slice is the matching slice of the whole. */
  lemma SliceOfSlice(c: string, o: nat, b: string, k: nat, l: nat)
    requires o + |b| <= |c| && c[o..o + |b|] == b && k <= l <= |b|
    ensures c[o + k..o + l] == b[k..l]
  {
    forall x | 0 <= x < l - k ensures c[o + k..o + l][x] == b[k..l][x] {
      assert c[o + k..o + l][x] == c[o..o + |b|][k + x];
    }
  }

  /** A slice found inside a slice of `p` is a slice of `p` itself. */
  lemma SliceWithin(p: string, n: nat, c: string, o: nat, d: string)
    requires n + |c| <= |p| && p[n..n + |c|] == c
    requires o + |d| <= |c| && c[o..o + |d|] == d
    ensures n + o + |d| <= |p| && p[n + o..n + o + |d|] == d
  {
    SliceOfSlice(p, n, c, o, o + |d|);
  }

  /** Where block `i` starts in the context. */
  function BlockStart(docs: seq<string>, metas: seq<Option<Metadata>>, i: nat): nat
    requires BlocksReadable(docs, metas) && i < Text.Min(|docs|, |metas|)
  {
    Text.Offset(ContextBlocks(docs, metas), BlockSeparator, i)
  }

  /** Block `i` of the context, `[source=... chunk=...]`, a newline and the document, sits at its offset. */
  lemma BlockInContext(docs: seq<string>, metas: seq<Option<Metadata>>, i: nat)
    requires BlocksReadable(docs, metas) && i < Text.Min(|docs|, |metas|)
    ensures var o, b := BlockStart(docs, metas, i), ContextBlock(docs[i], metas[i]);
      o + |b| <= |Context(docs, metas)| && Context(docs, metas)[o..o + |b|] == b
  {
    Text.JoinPartAt(ContextBlocks(docs, metas), BlockSeparator, i);
  }

  /** The retrieved document itself follows its block's header line in the context. */
  lemma DocumentInContext(docs: seq<string>, metas: seq<Option<Metadata>>, i: nat)
    requires BlocksReadable(docs, metas) && i < Text.Min(|docs|, |metas|)
    ensures var at := BlockStart(docs, metas, i) + |Header(metas[i])| + 1;
      at + |docs[i]| <= |Context(docs, metas)| && Context(docs, metas)[at..at + |docs[i]|] == docs[i]
  {
    var b := ContextBlock(docs[i], metas[i]);
    BlockInContext(docs, metas, i);
    SliceOfSlice(Context(docs, metas), BlockStart(docs, metas, i), b, |Header(metas[i])| + 1, |b|);
  }

  /** Blocks follow the retrieval order: an earlier result's block ends before a later one starts. */
  lemma BlocksInRetrievalOrder(docs: seq<string>, metas: seq<Option<Metadata>>, i: nat, j: nat)
    requires BlocksReadable(docs, metas) && i < j < Text.Min(|docs|, |metas|)
    ensures BlockStart(docs, metas, i) + |ContextBlock(docs[i], metas[i])| + |BlockSeparator|
         <= BlockStart(docs, metas, j)
  {
    OffsetsIncrease(ContextBlocks(docs, metas), BlockSeparator, i, j);
  }

  /** The prompt: the instructions, `CONTEXT:` and the context, then `QUESTION:` and the question. */
  lemma PromptLayout(context: string, question: string)
    ensures var p, n := Prompt(context, question), |Instructions| + |ContextLabel|;
      && |p| == n + |context| + |QuestionLabel| + |question| + 1
      && p[..|Instructions|] == Instructions
      && p[|Instructions|..n] == ContextLabel
      && p[n..n + |context|] == context
      && p[n + |context|..n + |context| + |QuestionLabel|] == QuestionLabel
      && p[|p| - |question| - 1..|p| - 1] == question
      && p[|p| - 1] == '\n'
  {
    var p, n := Prompt(context, question), |Instructions| + |ContextLabel|;
    var head := Instructions + ContextLabel;
    assert p == head + context + QuestionLabel + question + "\n";
    assert p[..|Instructions|] == head[..|Instructions|];
    assert p[|Instructions|..n] == head[|Instructions|..];
  }

  /** The context sits in the prompt right after the instructions and `CONTEXT:`. */
  lemma ContextInPrompt(context: string, question: string)
    ensures var n := |Instructions| + |ContextLabel|;
      n + |context| <= |Prompt(context, question)| && Prompt(context, question)[n..n + |context|] == context
  {
    var n := |Instructions| + |ContextLabel|;
    assert Prompt(context, question) == (Instructions + ContextLabel) + context + (QuestionLabel + question + "\n");
  }

  /**
   * Text found at offset `o` of the context is found `|Instructions| + |ContextLabel|`
   * further on in the prompt; with `DocumentInContext`, every retrieved
   * document appears verbatim in the prompt.
   */
  lemma ShiftIntoPrompt(c: string, question: string, o: nat, d: string)
    requires o + |d| <= |c| && c[o..o + |d|] == d
    ensures var at := |Instructions| + |ContextLabel| + o;
      at + |d| <= |Prompt(c, question)| && Prompt(c, question)[at..at + |d|] == d
  {
    ContextInPrompt(c, question);
    SliceWithin(Prompt(c, question), |Instructions| + |ContextLabel|, c, o, d);
  }

  /**
   * A non-empty search with readable metadata asks the model once and
   * answers with its stripped reply and one reference per result, however
   * many documents came back.
   */
  lemma AnsweredShape(question: string, docs: seq<string>, metas: seq<Option<Metadata>>, distances: seq<real>,
                      reply: string -> Option<string>)
    requires docs != [] && BlocksReadable(docs, metas) && ReferencesReadable(metas, distances)
    ensures var o := Ask(question, docs, metas, distances, reply);
      && o.Answered?
      && |o.result.references| == Text.Min(|metas|, |distances|)
      && (reply(Prompt(Context(docs, metas), question)).None? ==> o.result.answer == [])
      && |PromptsSent(question, docs, metas)| == 1
  {
  }

  /** A missing `source` or `chunk` in a block's metadata raises before the model is asked. */
  lemma UnreadableBlockAsksNothing(question: string, docs: seq<string>, metas: seq<Option<Metadata>>,
                                   distances: seq<real>, reply: string -> Option<string>, i: nat)
    requires i < |docs| && i < |metas| && !HasKeys(metas[i])
    ensures Ask(question, docs, metas, distances, reply) == MissingMetadata
    ensures PromptsSent(question, docs, metas) == []
  {
  }

  /**
   * No deduplication: two results for the same chunk at the same distance
   * give two equal references, both kept.
   */
  lemma DuplicateReferencesKept(question: string, reply: string -> Option<string>)
    ensures var m := Some(Metadata(Some("docs/a.md"), Some(0), Some("h")));
      var o := Ask(question, ["x", "x"], [m, m], [0.25, 0.25], reply);
      o.Answered? && o.result.references == [Reference("docs/a.md", 0, 0.25), Reference("docs/a.md", 0, 0.25)]
  {
    var m := Some(Metadata(Some("docs/a.md"), Some(0), Some("h")));
    assert ReferencesReadable([m, m], [0.25, 0.25]);
    assert BlocksReadable(["x", "x"], [m, m]);
  }
}

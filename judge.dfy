/**
 The judge asks a language model whether a generated answer is supported by
 the context documents, then reduces the model's free-text reply to a
 verdict. The model is a parameter of each call: a function from the prompt
 it is sent to the reply it gives.
 */
module Judging {
  import opened Schema
  import opened Strings

  /** The judge's verdict on an answer. */
  datatype JudgeResult = True | False | Maybe
  {
    /** A verdict is definitive when it is TRUE or FALSE. */
    predicate IsDefinitive()
      ensures IsDefinitive() <==> !Maybe?
    {
      this == True || this == False
    }
  }

  /** Which of the two prompts the judge sends. */
  datatype Mode = JudgeMode | ExplainMode

  datatype JudgeError = NoContextDocuments

  datatype Result<T> = Success(value: T) | Failure(error: JudgeError)

  const JudgeHeader: string :=
    "You are a helpful and objective query response evaluator.  \n"
    + "        You will find a set of context documents listed below.  You will also find\n"
    + "        a generated answer.  Does the generated answer contain any factual claims that are\n"
    + "        not explicitly stated in the context documents?  If so, return \"False\".  \n"
    + "        If not, return \"True\".\n"
    + "        \n"
    + "        Context documents:\n"
    + "        "

  const ExplainHeader: string :=
    "You are a helpful and objective query response evaluator.  \n"
    + "        You will find a set of context documents listed below.  You will also find\n"
    + "        a generated answer. Explain whether the generated answer is supported by the \n"
    + "        context or not, and if not, identify the unsupported (hallucinated) parts.\n"
    + "\n"
    + "        Context documents:\n"
    + "        "

  /** The text between the context section and the answer, in both prompts. */
  const AnswerHeader: string := "\n\n        Generated answer:\n        * "

  const Bullet: string := "\n* "

  /** The context section: every payload introduced by a bullet line. */
  function ContextSection(payloads: seq<string>): string
  {
    Bullet + Join(Bullet, payloads)
  }

  /** One bullet line per payload, in order. */
  function Bulleted(payloads: seq<string>): string
  {
    if payloads == [] then "" else Bullet + payloads[0] + Bulleted(payloads[1..])
  }

  /** For a non-empty list, each payload is preceded by exactly one bullet,
      in input order. */
  lemma {:induction false} ContextSectionBulleted(payloads: seq<string>)
    requires payloads != []
    ensures ContextSection(payloads) == Bulleted(payloads)
    decreases |payloads|
  {
    if |payloads| > 1 {
      ContextSectionBulleted(payloads[1..]);
    }
  }

  /** The prompt template of `mode` filled with the context section and the answer. */
  function Prompt(mode: Mode, contextSection: string, response: string): string
  {
    (if mode == JudgeMode then JudgeHeader else ExplainHeader) + contextSection + AnswerHeader + response
  }

  /** The text the verdict is read from: the reply stripped and lower-cased. */
  function Normalize(reply: string): (r: string)
    ensures r == Strip(Lower(reply))
  {
    LowerStrip(reply);
    Lower(Strip(reply))
  }

  /** The verdict for a normalised reply: "false" and "true" together, or
      neither, is MAYBE; only "false" is FALSE; only "true" is TRUE. */
  function Classify(text: string): (r: JudgeResult)
    ensures r == True <==> Contains(text, "true") && !Contains(text, "false")
    ensures r == False <==> Contains(text, "false") && !Contains(text, "true")
    ensures r == Maybe <==> (Contains(text, "true") <==> Contains(text, "false"))
  {
    if Contains(text, "false") && Contains(text, "true") then Maybe
    else if Contains(text, "false") then False
    else if Contains(text, "true") then True
    else Maybe
  }

  /** The verdict on a raw reply. */
  function Verdict(reply: string): JudgeResult
  {
    Classify(Normalize(reply))
  }

  /** The verdict depends only on whether the lower-cased reply mentions
      "true" and "false" anywhere: stripping never changes it. */
  lemma VerdictOfReply(reply: string)
    ensures Verdict(reply) == Classify(Lower(reply))
    ensures Verdict(reply) == True <==> Contains(Lower(reply), "true") && !Contains(Lower(reply), "false")
    ensures Verdict(reply) == False <==> Contains(Lower(reply), "false") && !Contains(Lower(reply), "true")
    ensures Verdict(reply) == Maybe <==> (Contains(Lower(reply), "true") <==> Contains(Lower(reply), "false"))
  {
    LowerStrip(reply);
    ContainsStrip(Lower(reply), "true");
    ContainsStrip(Lower(reply), "false");
  }

  /** Classification is case-insensitive: replies that differ only in the
      case of ASCII letters get the same verdict. */
  lemma VerdictIgnoresCase(a: string, b: string)
    requires Lower(a) == Lower(b)
    ensures Verdict(a) == Verdict(b)
  {
  }

  /** A verdict is definitive exactly when the reply mentions one of "true"
      and "false" but not both. */
  lemma DefinitiveVerdict(reply: string)
    ensures Verdict(reply).IsDefinitive() <==> (Contains(Lower(reply), "true") != Contains(Lower(reply), "false"))
  {
    VerdictOfReply(reply);
  }

  class Judge {
    /** The prompt most recently sent to the model. */
    var lastPrompt: string
    /** The most recent reply, as the judge kept it. */
    var lastResult: string

    constructor ()
      ensures lastPrompt == "" && lastResult == ""
    {
      lastPrompt := "";
      lastResult := "";
    }

    /** Builds the `mode` prompt for `response` against `contextDocuments`,
        records it, and returns the model's reply to it. An empty document
        list is refused before anything is recorded or sent. */
    method Ask(response: string, contextDocuments: seq<Document>, mode: Mode, llm: string -> string)
      returns (r: Result<string>)
      modifies this
      ensures lastResult == old(lastResult)
      ensures contextDocuments == [] ==> r == Failure(NoContextDocuments) && lastPrompt == old(lastPrompt)
      ensures contextDocuments != [] ==>
        && lastPrompt == Prompt(mode, ContextSection(Payloads(contextDocuments)), response)
        && r == Success(llm(lastPrompt))
    {
      if |contextDocuments| == 0 {
        return Failure(NoContextDocuments);
      }
      var contextSection := ContextSection(Payloads(contextDocuments));
      var prompt := Prompt(mode, contextSection, response);
      lastPrompt := prompt;
      r := Success(llm(prompt));
    }

    /** Judges `response`: records the normalised reply and returns its verdict. */
    method JudgeAnswer(response: string, contextDocuments: seq<Document>, llm: string -> string)
      returns (r: Result<JudgeResult>)
      modifies this
      ensures contextDocuments == [] ==>
        r == Failure(NoContextDocuments) && lastPrompt == old(lastPrompt) && lastResult == old(lastResult)
      ensures contextDocuments != [] ==>
        && lastPrompt == Prompt(JudgeMode, ContextSection(Payloads(contextDocuments)), response)
        && lastResult == Normalize(llm(lastPrompt))
        && r == Success(Classify(lastResult))
    {
      var reply := Ask(response, contextDocuments, JudgeMode, llm);
      if reply.Failure? {
        return Failure(reply.error);
      }
      lastResult := Normalize(reply.value);
      r := Success(Classify(lastResult));
    }

    /** Asks for an explanation: records and returns the stripped reply. */
    method Explain(response: string, contextDocuments: seq<Document>, llm: string -> string)
      returns (r: Result<string>)
      modifies this
      ensures contextDocuments == [] ==>
        r == Failure(NoContextDocuments) && lastPrompt == old(lastPrompt) && lastResult == old(lastResult)
      ensures contextDocuments != [] ==>
        && lastPrompt == Prompt(ExplainMode, ContextSection(Payloads(contextDocuments)), response)
        && lastResult == Strip(llm(lastPrompt))
        && r == Success(lastResult)
    {
      var reply := Ask(response, contextDocuments, ExplainMode, llm);
      if reply.Failure? {
        return Failure(reply.error);
      }
      lastResult := Strip(reply.value);
      r := Success(lastResult);
    }
  }
}

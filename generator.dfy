/**
 The generator builds a fixed-shape prompt from the query and the retrieved
 documents, records it, and hands it to the language model, which is a
 parameter of the call: a function from the prompt to the answer.
 */
module Generation {
  import opened Schema
  import opened Strings

  const Boilerplate: string := "Answer the query based on the following documents:"

  const QueryLabel: string := "\n\nQuery: "

  /** The boilerplate line, a blank line, the payloads one per line, a blank
      line and the query. */
  function GeneratorPrompt(query: string, payloads: seq<string>): string
  {
    Boilerplate + "\n\n" + Join("\n", payloads) + QueryLabel + query
  }

  /** The prompt is the boilerplate header, then exactly the newline-joined
      payloads, then the query line; with no documents the middle is empty. */
  lemma GeneratorPromptShape(query: string, payloads: seq<string>)
    ensures var prompt := GeneratorPrompt(query, payloads);
      var start := |Boilerplate| + 2;
      var stop := |prompt| - |QueryLabel| - |query|;
      && start <= stop
      && prompt[..start] == Boilerplate + "\n\n"
      && prompt[start..stop] == Join("\n", payloads)
      && prompt[stop..] == QueryLabel + query
    ensures payloads == [] ==> GeneratorPrompt(query, payloads) == Boilerplate + "\n\n\n\nQuery: " + query
  {
  }

  /** The documents section lists the payloads in input order: for payloads
      without line breaks, splitting it at line breaks recovers the list. */
  lemma GeneratorPromptPayloads(query: string, payloads: seq<string>)
    requires payloads != []
    requires forall i :: 0 <= i < |payloads| ==> '\n' !in payloads[i]
    ensures var prompt := GeneratorPrompt(query, payloads);
      SplitOn(prompt[|Boilerplate| + 2..|prompt| - |QueryLabel| - |query|], '\n') == payloads
  {
    GeneratorPromptShape(query, payloads);
    SplitJoin('\n', payloads);
  }

  class Generator {
    /** The prompt built by the most recent `Generate`. */
    var lastPrompt: string

    constructor ()
      ensures lastPrompt == ""
    {
      lastPrompt := "";
    }

    /** Builds and records the prompt for `query` over `documents`, then
        returns the model's answer to exactly that prompt. */
    method Generate(query: string, documents: seq<Document>, llm: string -> string)
      returns (answer: string)
      modifies this
      ensures lastPrompt == GeneratorPrompt(query, Payloads(documents))
      ensures answer == llm(lastPrompt)
    {
      lastPrompt := GeneratorPrompt(query, Payloads(documents));
      answer := llm(lastPrompt);
    }

    /** The prompt recorded by the most recent `Generate`, or "" before any. */
    method GetLastPrompt() returns (prompt: string)
      ensures prompt == lastPrompt
    {
      prompt := lastPrompt;
    }
  }
}

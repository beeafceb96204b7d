/** The local language model, as the service uses it: text in, text out.
    Its weights and inference are not modelled; what it generates for a
    call is an oracle fixed when the model is loaded. */
module Llm {
  import opened Results

  /** One invocation `llm(prompt, max_new_tokens=..., stop=[...])`. */
  datatype Call = Call(prompt: string, maxNewTokens: nat, stop: seq<string>)

  /** A loaded model, with a log of the calls made to it. */
  class LanguageModel {
    /** what the model generates for a call, or the exception it raises */
    const complete: Call -> Result<string>
    /** every call made so far, oldest first */
    var calls: seq<Call>

    constructor (complete: Call -> Result<string>)
      ensures this.complete == complete && calls == []
    {
      this.complete := complete;
      calls := [];
    }

    /** `llm(prompt, max_new_tokens=..., stop=...)` */
    method Generate(call: Call) returns (r: Result<string>)
      modifies this`calls
      ensures r == complete(call)
      ensures calls == old(calls) + [call]
    {
      r := complete(call);
      calls := calls + [call];
    }
  }
}

/**
 * The fail-open completion policy shared by both handlers
 * (main.py:57-71 and main.py:95-109). The call to the completion
 * service is not modelled; its outcome is an input.
 */
module CompletionGateway {

  /**
   * What the completion call produced: it raised (network, quota,
   * timeout, ...), or it returned the candidates' message contents.
   */
  datatype Completion = Raised | Returned(choices: seq<string>)

  /** The fixed text sent whenever the completion cannot be used. */
  const Fallback: string := "مشکلی برای ربات پیش اومده ولی بازم از تو بهترم"

  /** True when `response['choices'][0]['message']['content']` can be read without raising. */
  predicate Usable(c: Completion)
  {
    c.Returned? && |c.choices| > 0
  }

  /**
   * The reply text: the first candidate verbatim when there is one;
   * otherwise (the call raised, or indexing the empty choices list
   * raised inside the same try block) the fallback. Never fails.
   */
  function ReplyText(c: Completion): (r: string)
    ensures Usable(c) ==> r == c.choices[0]
    ensures !Usable(c) ==> r == Fallback
    ensures r == Fallback || r in c.choices
  {
    match c
    case Returned(choices) => if |choices| > 0 then choices[0] else Fallback
    case Raised => Fallback
  }
}

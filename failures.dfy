/** How the panel turns a thrown value into the text it shows. Three places
    (the data service, the authentication provider and the quick-add
    dialog) recognise the same four browser phrases for an unreachable
    server, case-insensitively, and replace the message by a fixed hint. */
module Failures {
  import opened Text

  /** A thrown value: an `Error` with its message, a bare string, or
      anything else. */
  datatype Thrown = ErrorObject(message: string) | ErrorText(text: string) | OtherValue

  /** The message of a thrown value, or `fallback` when it has none. */
  function MessageOf(e: Thrown, fallback: string): string {
    match e
    case ErrorObject(m) => m
    case ErrorText(t) => t
    case OtherValue => fallback
  }

  const NETWORK_PHRASES: seq<string> := ["fetch failed", "load failed", "failed to fetch", "networkerror"]

  /** The lower-cased message contains one of the network phrases. */
  predicate IsNetworkFailure(message: string) {
    var lower := ToLower(message);
    Contains(lower, "fetch failed") || Contains(lower, "load failed") ||
    Contains(lower, "failed to fetch") || Contains(lower, "networkerror")
  }

  /** The test ignores case. */
  lemma NetworkFailureIgnoresCase(message: string)
    ensures IsNetworkFailure(ToLower(message)) <==> IsNetworkFailure(message)
  {
    ToLowerIdempotent(message);
  }

  /** A message carrying any of the phrases, in any letter case and anywhere
      in the text, is a network failure. */
  lemma NetworkPhraseAnywhere(before: string, phrase: string, after: string)
    requires ToLower(phrase) in NETWORK_PHRASES
    ensures IsNetworkFailure(before + phrase + after)
  {
    ToLowerConcat(before + phrase, after);
    ToLowerConcat(before, phrase);
    ContainsInfix(ToLower(before), ToLower(phrase), ToLower(after));
  }

  /** A message shorter than every phrase is not a network failure. */
  lemma ShortMessageIsNotNetworkFailure(message: string)
    requires |message| < 11
    ensures !IsNetworkFailure(message)
  {
    var lower := ToLower(message);
    ContainsNothingLonger(lower, "fetch failed");
    ContainsNothingLonger(lower, "load failed");
    ContainsNothingLonger(lower, "failed to fetch");
    ContainsNothingLonger(lower, "networkerror");
  }
}

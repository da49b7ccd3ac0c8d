/**
 * `EnhancedGeminiClient.generate_recipes`: the empty-input check, the
 * prompt, and the bounded retry loop around the remote chat.
 *
 * The remote chat is an oracle: `reply(k)` is what the k-th `send_message`
 * of this call produces, either a transport failure (any exception of the
 * call itself) or the response text. `json.loads` is the function `decode`,
 * `None` standing for a `JSONDecodeError`. `time.sleep` is recorded: the
 * method returns the delays, in seconds, in the order they were slept.
 */
module Generation {
  import opened Common
  import opened Text
  import opened Prompt

  /** `config.MAX_RETRIES`. */
  const MaxRetries: nat := 3

  datatype Reply = TransportError | Response(body: string)

  /** How one call ends: it returns `(parsed, raw_response, formatted_prompt)`,
      or the transport failure of the last attempt propagates. */
  datatype Result = Returned(parsed: Option<Json>, raw: string, prompt: string) | Raised

  /** `2 ** attempt`. */
  function Pow2(n: nat): nat
  {
    if n == 0 then 1 else 2 * Pow2(n - 1)
  }

  /** The response to attempt `k` is text that decodes. */
  predicate Decodes(reply: nat -> Reply, decode: string -> Option<Json>, k: nat)
  {
    reply(k).Response? && decode(reply(k).body).Some?
  }

  /** The back-off delays slept before attempt `k`: `2 ** j` for each
      earlier attempt `j` whose send failed, in order. */
  function Backoff(reply: nat -> Reply, k: nat): seq<nat>
  {
    if k == 0 then []
    else Backoff(reply, k - 1) + (if reply(k - 1).TransportError? then [Pow2(k - 1)] else [])
  }

  /** What a call with a non-blank ingredient text does with `prompt`:
      it sends the same prompt once per attempt, at most `MaxRetries` times;
      every attempt but the last failed (transport or decode); it stops
      early only on a response that decodes; it slept the back-off delays
      of the failed sends before the last attempt; and the last attempt
      decides the result: a transport failure propagates, a text is
      returned with what `decode` made of it. */
  ghost predicate RetryOutcome(prompt: string, reply: nat -> Reply, decode: string -> Option<Json>,
                               result: Result, sent: seq<string>, sleeps: seq<nat>)
  {
    var n := |sent|;
    && 1 <= n <= MaxRetries
    && (forall i :: 0 <= i < n ==> sent[i] == prompt)
    && (forall j :: 0 <= j < n - 1 ==> !Decodes(reply, decode, j))
    && (n < MaxRetries ==> Decodes(reply, decode, n - 1))
    && sleeps == Backoff(reply, n - 1)
    && result == Settled(reply(n - 1), decode, prompt)
  }

  /** How the last attempt ends the call: a transport failure propagates,
      a text is returned together with what `decode` made of it. */
  function Settled(last: Reply, decode: string -> Option<Json>, prompt: string): Result
  {
    match last
    case TransportError => Raised
    case Response(body) => Returned(decode(body), body, prompt)
  }

  /** The call may stop at `attempt` when the loop invariant holds after its
      send and either the response decodes or no attempt is left. */
  lemma StopsAt(prompt: string, reply: nat -> Reply, decode: string -> Option<Json>,
                sent: seq<string>, sleeps: seq<nat>, attempt: nat)
    requires attempt < MaxRetries
    requires |sent| == attempt + 1 && forall i :: 0 <= i < |sent| ==> sent[i] == prompt
    requires forall j :: 0 <= j < attempt ==> !Decodes(reply, decode, j)
    requires sleeps == Backoff(reply, attempt)
    requires attempt < MaxRetries - 1 ==> Decodes(reply, decode, attempt)
    ensures RetryOutcome(prompt, reply, decode, Settled(reply(attempt), decode, prompt), sent, sleeps)
  {
  }

  /** `generate_recipes(ingredients, dietary_restrictions, additional_context)`:
      blank ingredients end the call at once, with no send; otherwise the
      prompt is built and sent with retries. */
  method GenerateRecipes(ingredients: string, restrictions: seq<string>, context: string,
                         reply: nat -> Reply, decode: string -> Option<Json>)
    returns (result: Result, sent: seq<string>, sleeps: seq<nat>)
    ensures Blank(ingredients) ==> result == Returned(None, "", "") && sent == [] && sleeps == []
    ensures !Blank(ingredients) ==>
              RetryOutcome(FormattedPrompt(ingredients, restrictions, context), reply, decode, result, sent, sleeps)
  {
    if Blank(ingredients) {
      return Returned(None, "", ""), [], [];
    }
    var prompt := FormattedPrompt(ingredients, restrictions, context);
    result, sent, sleeps := SendWithRetries(prompt, reply, decode);
  }

  /** The `for attempt in range(MAX_RETRIES)` loop of `generate_recipes`,
      sending `prompt` until a response decodes or the attempts run out. */
  method SendWithRetries(prompt: string, reply: nat -> Reply, decode: string -> Option<Json>)
    returns (result: Result, sent: seq<string>, sleeps: seq<nat>)
    ensures RetryOutcome(prompt, reply, decode, result, sent, sleeps)
  {
    var raw := "";
    sent, sleeps := [], [];
    var attempt: nat := 0;
    while attempt < MaxRetries
      invariant attempt < MaxRetries
      invariant |sent| == attempt && forall i :: 0 <= i < attempt ==> sent[i] == prompt
      invariant forall j :: 0 <= j < attempt ==> !Decodes(reply, decode, j)
      invariant sleeps == Backoff(reply, attempt)
    {
      sent := sent + [prompt];
      match reply(attempt) {
        case Response(body) =>
          raw := body;
          var parsed := decode(raw);
          if parsed.Some? {
            StopsAt(prompt, reply, decode, sent, sleeps, attempt);
            return Returned(parsed, raw, prompt), sent, sleeps;
          }
          if attempt == MaxRetries - 1 {
            StopsAt(prompt, reply, decode, sent, sleeps, attempt);
            return Returned(None, raw, prompt), sent, sleeps;
          }
        case TransportError =>
          if attempt == MaxRetries - 1 {
            StopsAt(prompt, reply, decode, sent, sleeps, attempt);
            return Raised, sent, sleeps;
          }
          sleeps := sleeps + [Pow2(attempt)];
      }
      attempt := attempt + 1;
    }
    // The fall-through return after the loop is dead: the last attempt
    // always returns or raises, so the loop never runs out of attempts.
    assert false;
  }

  /** The outcome of a call is determined by the replies: two runs that
      both satisfy `RetryOutcome` agree on the result, the sends and the
      delays. */
  lemma RetryOutcomeIsUnique(prompt: string, reply: nat -> Reply, decode: string -> Option<Json>,
                             result1: Result, sent1: seq<string>, sleeps1: seq<nat>,
                             result2: Result, sent2: seq<string>, sleeps2: seq<nat>)
    requires RetryOutcome(prompt, reply, decode, result1, sent1, sleeps1)
    requires RetryOutcome(prompt, reply, decode, result2, sent2, sleeps2)
    ensures result1 == result2 && sent1 == sent2 && sleeps1 == sleeps2
  {
    assert |sent1| == |sent2|;
    assert sent1 == sent2;
  }

  /** No delay is slept before attempt `k` when no earlier send failed. */
  lemma {:induction false} NoBackoffWithoutTransportErrors(reply: nat -> Reply, k: nat)
    requires forall j :: 0 <= j < k ==> reply(j).Response?
    ensures Backoff(reply, k) == []
  {
    if k > 0 {
      NoBackoffWithoutTransportErrors(reply, k - 1);
    }
  }

  /** A response that decodes ends the call at once: when attempt `k` is the
      first whose response decodes, exactly `k + 1` sends were made and the
      decoded payload is returned with that raw text and the prompt. */
  lemma FirstDecodableResponseWins(prompt: string, reply: nat -> Reply, decode: string -> Option<Json>,
                                   result: Result, sent: seq<string>, sleeps: seq<nat>, k: nat)
    requires RetryOutcome(prompt, reply, decode, result, sent, sleeps)
    requires k < MaxRetries && Decodes(reply, decode, k)
    requires forall j :: 0 <= j < k ==> !Decodes(reply, decode, j)
    ensures |sent| == k + 1
    ensures result == Returned(decode(reply(k).body), reply(k).body, prompt)
    ensures result.parsed.Some?
  {
  }

  /** Decode failures alone: when every response is text that does not
      decode, the call makes all `MaxRetries` sends, sleeps nowhere, and
      returns no payload with the last raw text. */
  lemma UndecodableResponsesExhaustRetries(prompt: string, reply: nat -> Reply, decode: string -> Option<Json>,
                                           result: Result, sent: seq<string>, sleeps: seq<nat>)
    requires RetryOutcome(prompt, reply, decode, result, sent, sleeps)
    requires forall j :: 0 <= j < MaxRetries ==> reply(j).Response? && !Decodes(reply, decode, j)
    ensures |sent| == MaxRetries
    ensures sleeps == []
    ensures result == Returned(None, reply(MaxRetries - 1).body, prompt)
  {
    NoBackoffWithoutTransportErrors(reply, |sent| - 1);
  }

  /** Transport failures: one on a non-final attempt `k` is retried after a
      delay of `2 ** k` seconds; only one on the final attempt propagates. */
  lemma TransportFailureIsRetried(prompt: string, reply: nat -> Reply, decode: string -> Option<Json>,
                                  result: Result, sent: seq<string>, sleeps: seq<nat>, k: nat)
    requires RetryOutcome(prompt, reply, decode, result, sent, sleeps)
    requires k < |sent| && reply(k).TransportError?
    ensures k < MaxRetries - 1 ==> k + 1 < |sent| && Pow2(k) in sleeps
    ensures k == |sent| - 1 ==> result == Raised && k == MaxRetries - 1
  {
    if k < |sent| - 1 {
      BackoffHasDelay(reply, k, |sent| - 1);
    }
  }

  lemma {:induction false} BackoffHasDelay(reply: nat -> Reply, j: nat, k: nat)
    requires j < k && reply(j).TransportError?
    ensures Pow2(j) in Backoff(reply, k)
  {
    if j < k - 1 {
      BackoffHasDelay(reply, j, k - 1);
    }
  }

  /** The delays are those of `2 ** attempt` for the failed sends, so within
      one call at most two are slept, 1 second and then 2 seconds. */
  lemma BackoffDelays(prompt: string, reply: nat -> Reply, decode: string -> Option<Json>,
                      result: Result, sent: seq<string>, sleeps: seq<nat>)
    requires RetryOutcome(prompt, reply, decode, result, sent, sleeps)
    ensures |sleeps| <= MaxRetries - 1
    ensures forall i :: 0 <= i < |sleeps| ==> sleeps[i] == 1 || sleeps[i] == 2
    ensures forall i, j :: 0 <= i < j < |sleeps| ==> sleeps[i] < sleeps[j]
  {
    assert |sent| - 1 <= 2;
    assert Backoff(reply, 0) == [];
    assert Pow2(0) == 1 && Pow2(1) == 2;
  }

  /** Two transport failures and then a decodable response: the call sleeps
      1 second, then 2 seconds, and returns the third response's payload. */
  lemma TwoTransportFailuresThenSuccess(prompt: string, reply: nat -> Reply, decode: string -> Option<Json>,
                                        result: Result, sent: seq<string>, sleeps: seq<nat>)
    requires RetryOutcome(prompt, reply, decode, result, sent, sleeps)
    requires reply(0).TransportError? && reply(1).TransportError? && Decodes(reply, decode, 2)
    ensures |sent| == 3
    ensures sleeps == [1, 2]
    ensures result == Returned(decode(reply(2).body), reply(2).body, prompt)
  {
    assert Backoff(reply, 1) == [Pow2(0)];
    assert Pow2(1) == 2;
  }
}

/** The handler's collaborators, abstracted as inputs, and the log of the
    calls the handler makes to them. */
module Effects {
  import opened Wrappers
  import opened Http

  /** What one awaited call into the OpenAI client gave: a value, or the
      `message` of the error it threw (a provider failure, or a malformed
      reply whose property access throws). */
  datatype Reply<+T> = Returned(value: T) | Threw(message: string)

  /** What one download attempt gave: a response with its status and the
      bytes of its body, or a rejection of `fetch` or of reading the body. */
  datatype DownloadOutcome =
    | Fetched(status: nat, body: seq<byte>)
    | FetchFailed(message: string)

  /** Everything the handler needs from the outside world for one request:
      the message content of the vision reply, the URL in the generation
      reply, and the outcome of each successive download attempt. */
  datatype Environment = Environment(
    vision: Reply<Option<string>>,
    generation: Reply<Option<string>>,
    downloads: seq<DownloadOutcome>)

  /** One outward effect of the handler, in the order it happens. */
  datatype Call =
    | VisionCall(text: Option<string>)
    | GenerationCall(prompt: string)
    | DownloadAttempt(url: string)
    | Sleep(ms: nat)

  datatype CallKind = Vision | Generation | Download | Pause

  function KindOf(c: Call): CallKind {
    match c
    case VisionCall(_) => Vision
    case GenerationCall(_) => Generation
    case DownloadAttempt(_) => Download
    case Sleep(_) => Pause
  }

  /** The number of calls of one kind in a log. */
  function Count(calls: seq<Call>, k: CallKind): (n: nat)
    ensures n <= |calls|
  {
    if calls == [] then 0
    else (if KindOf(calls[0]) == k then 1 else 0) + Count(calls[1..], k)
  }

  lemma {:induction false} CountAppend(a: seq<Call>, b: seq<Call>, k: CallKind)
    ensures Count(a + b, k) == Count(a, k) + Count(b, k)
    decreases |a|
  {
    if a == [] {
      assert a + b == b;
    } else {
      assert (a + b)[0] == a[0] && (a + b)[1..] == a[1..] + b;
      CountAppend(a[1..], b, k);
    }
  }
}

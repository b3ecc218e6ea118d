/** The `POST /api/convert` handler: validate the upload, compose the vision
    instruction, ask the vision model for a prompt, add the guardrail
    sentence, ask the image model for a picture, download it with retries,
    and answer with its bytes or with a JSON error. */
module Convert {
  import opened Wrappers
  import opened Http
  import opened Effects
  import opened Download

  const MaxImageBytes: nat := 5 * 1024 * 1024

  const NoImageMessage := "No image file provided"
  const TooLargeMessage := "Image size should be less than 5MB"
  const NoPromptMessage := "No prompt generated from GPT-4 Vision"
  const NoUrlMessage := "No image URL received from DALL-E"
  const FallbackMessage := "Error generating image. Please try again."

  /** The framing sentence placed between the caller's template and the
      user's extra details. */
  const DetailsFraming := "\n\nAdditional user requirements to incorporate while maintaining the above structure:\n"

  /** The sentence appended to every prompt sent to the image model. */
  const Guardrail := "\nImportant: Do not change any part of the photo's structure or clothing. This is a redraw in Studio Ghibli style, not a reinterpretation."

  const ImageHeaders: seq<Header> := [
    Header("Content-Type", "image/jpeg"),
    Header("Content-Disposition", "attachment; filename=\"ghibli-style.jpg\""),
    Header("Cache-Control", "no-cache, no-store, must-revalidate"),
    Header("Pragma", "no-cache"),
    Header("Expires", "0")
  ]

  /** The uploaded file, as far as the handler inspects it: its size in bytes. */
  datatype UploadedFile = UploadedFile(size: nat)

  /** The multipart fields the handler reads; each may be absent. */
  datatype FormData = FormData(
    image: Option<UploadedFile>,
    details: Option<string>,
    visionPrompt: Option<string>)

  /** The outcome of one request: the response and the calls made. */
  datatype Run = Run(response: Response, calls: seq<Call>)

  /** A JavaScript value of type `string | null` used as a condition. */
  predicate Truthy(s: Option<string>) {
    s.Some? && s.value != ""
  }

  /** A `string | null` as string concatenation renders it. */
  function JsText(s: Option<string>): string {
    if s.Some? then s.value else "null"
  }

  /** The upload check: the file must be there and at most 5 MiB. */
  function ValidateUpload(image: Option<UploadedFile>): (r: Result<UploadedFile>)
    ensures r.Success? <==> image.Some? && image.value.size <= MaxImageBytes
    ensures r.Success? ==> r.value == image.value
    ensures r.Failure? ==> r.error == (if image.None? then NoImageMessage else TooLargeMessage)
  {
    if image.None? then Failure(NoImageMessage)
    else if image.value.size > MaxImageBytes then Failure(TooLargeMessage)
    else Success(image.value)
  }

  /** s is a, then b, then c, read off at the boundaries the lengths give. */
  predicate Concatenates(s: string, a: string, b: string, c: string) {
    && |s| == |a| + |b| + |c|
    && s[..|a|] == a
    && s[|a|..|a| + |b|] == b
    && s[|a| + |b|..] == c
  }

  /** The instruction text sent to the vision model. */
  function ComposeVisionPrompt(visionPrompt: Option<string>, details: Option<string>): (p: Option<string>)
    ensures !Truthy(details) ==> p == visionPrompt
    ensures Truthy(details) ==>
              p.Some? && Concatenates(p.value, JsText(visionPrompt), DetailsFraming, details.value)
  {
    if Truthy(details) then Some(JsText(visionPrompt) + DetailsFraming + details.value)
    else visionPrompt
  }

  /** The prompt sent to the image model, built from the vision content. */
  function WithGuardrail(content: string): (p: string)
    ensures |p| == |content| + |Guardrail|
    ensures p[..|content|] == content && p[|content|..] == Guardrail
  {
    content + Guardrail
  }

  /** The 500 answer for a thrown error; an empty message gets the fallback. */
  function ServerError(message: string): (r: Response)
    ensures r.Json? && r.Status() == 500 && r.error != ""
    ensures message != "" ==> r.error == message
    ensures message == "" ==> r.error == FallbackMessage
  {
    Json(500, if message == "" then FallbackMessage else message)
  }

  /** What one request yields, stated stage by stage. */
  function ConvertSpec(form: FormData, env: Environment): (run: Run)
    requires |env.downloads| >= MaxAttempts
    ensures run.response.Status() in {200, 400, 500}
    ensures run.response.Status() == 400 <==> run.calls == []
  {
    match ValidateUpload(form.image)
    case Failure(message) => Run(Json(400, message), [])
    case Success(_) =>
      var asked := [VisionCall(ComposeVisionPrompt(form.visionPrompt, form.details))];
      match env.vision
      case Threw(message) => Run(ServerError(message), asked)
      case Returned(content) =>
        if !Truthy(content) then Run(ServerError(NoPromptMessage), asked)
        else
          var generated := asked + [GenerationCall(WithGuardrail(content.value))];
          match env.generation
          case Threw(message) => Run(ServerError(message), generated)
          case Returned(url) =>
            if !Truthy(url) then Run(ServerError(NoUrlMessage), generated)
            else
              var plan := DownloadSpec(env.downloads);
              var calls := generated + AttemptTrace(url.value, plan.attempts);
              match plan.result
              case Downloaded(bytes) => Run(Binary(ImageHeaders, bytes), calls)
              case Exhausted(message) => Run(ServerError(message), calls)
  }

  /** The handler itself, step by step as the route runs it; every
      `throw` inside its `try` becomes a return of the 500 answer. */
  method Post(form: FormData, env: Environment) returns (response: Response, calls: seq<Call>)
    requires |env.downloads| >= MaxAttempts
    ensures response == ConvertSpec(form, env).response
    ensures calls == ConvertSpec(form, env).calls
  {
    calls := [];
    if form.image.None? {
      response := Json(400, NoImageMessage);
      return;
    }
    if form.image.value.size > MaxImageBytes {
      response := Json(400, TooLargeMessage);
      return;
    }

    var finalVisionPrompt := form.visionPrompt;
    if Truthy(form.details) {
      finalVisionPrompt := Some(JsText(finalVisionPrompt) + DetailsFraming + form.details.value);
    }
    calls := calls + [VisionCall(finalVisionPrompt)];
    if env.vision.Threw? {
      response := ServerError(env.vision.message);
      return;
    }
    var content := env.vision.value;
    if !Truthy(content) {
      response := ServerError(NoPromptMessage);
      return;
    }
    var prompt := content.value;
    prompt := prompt + Guardrail;

    calls := calls + [GenerationCall(prompt)];
    if env.generation.Threw? {
      response := ServerError(env.generation.message);
      return;
    }
    var imageUrl := env.generation.value;
    if !Truthy(imageUrl) {
      response := ServerError(NoUrlMessage);
      return;
    }

    var downloaded, attempts := DownloadWithRetry(imageUrl.value, env.downloads);
    calls := calls + attempts;
    match downloaded
    case Exhausted(message) =>
      response := ServerError(message);
    case Downloaded(bytes) =>
      response := Binary(ImageHeaders, bytes);
  }
}

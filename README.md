# Ghibli art converter: the `POST /api/convert` handler in Dafny

The service takes an uploaded photo and optional free-text details. It asks
the OpenAI vision model to describe the photo as a prompt, and appends a
fixed guardrail sentence to that prompt. It then asks the image model to
draw the prompt and downloads the result, with up to three attempts. The
answer is the image bytes with fixed download headers, or a JSON error:
400 for a bad upload, 500 for anything thrown later.

The model keeps the handler's own decisions and treats every collaborator
as an input. `Effects.Environment` holds the vision reply's content, the
generation reply's URL, and one `DownloadOutcome` per download attempt.
Each OpenAI reply may also be an error thrown with a message. The handler
records every outward effect in a call log (`Effects.Call`): vision call,
generation call, download attempt, one-second pause. The properties
"no upstream call after a 400" and "no fourth attempt" are stated by
counting the entries of that log.

Files and modules:

- `wrappers.dfy` (`Wrappers`): `Option` and `Result`.
- `http.dfy` (`Http`): bytes, headers, the two kinds of response, the
  `ok` status range, and how `${status}` renders a number.
- `effects.dfy` (`Effects`): the upstream replies, the download outcomes
  and the call log.
- `download.dfy` (`Download`): the retry loop. `DownloadWithRetry` is the
  `while (retries > 0)` loop, proved against `DownloadSpec`. That spec is
  defined through the first successful outcome.
- `convert.dfy` (`Convert`): the constants, upload validation, prompt
  composition and the error mapping. `ConvertSpec` gives the whole
  pipeline stage by stage. `Post` is the handler written step by step,
  proved equal to `ConvertSpec`.
- `convert_properties.dfy` (`ConvertProperties`): the handler's promises,
  proved as lemmas about `ConvertSpec`. Through `Post`'s postcondition they
  also hold of `Post`.

Modelling notes:

- The `visionPrompt` field is a `string | null` in the route. The older
  uploader, `src/app/components/ImageUploader.tsx`, never sends it. When it
  is missing and details are given, JavaScript's `+=` turns the null into
  the text `"null"` before the framing sentence. `Convert.JsText` models
  that. When it is missing and no details are given, the vision call
  receives a null text.
- `if (x)` on a `string | null` holds for a present, non-empty string
  (`Convert.Truthy`). This is the test used for the details, the vision
  content and the image URL.
- The catch block answers with `error.message || 'Error generating image.
  Please try again.'`. `Convert.ServerError` keeps that fallback for an
  upstream error whose message is empty.
- A download attempt fails on a rejected `fetch` (or body read), with that
  rejection's message. It also fails on a status outside 200-299, with
  `HTTP error! status: ` followed by the decimal status.
- `Post` and `DownloadWithRetry` require at least three download outcomes.
  This is not a precondition of the route. It only makes the oracle supply
  an outcome for every attempt the loop can make. The outcomes after the
  third are never consulted.

## Model

| member | source | states |
|---|---|---|
| Http.Decimal | src/app/api/convert/route.ts:125 | the rendered status is a non-empty string of decimal digits with no leading zero |
| Http.DecimalRoundTrip | src/app/api/convert/route.ts:125 | reading the rendered digits back gives the status code |
| Http.DecimalInjective | src/app/api/convert/route.ts:125 | different status codes render to different digit strings |
| Download.HttpErrorInjective | src/app/api/convert/route.ts:123-126 | two responses whose non-ok statuses differ fail with different "HTTP error! status: " messages |
| Download.Succeeded | src/app/api/convert/route.ts:123-128 | an attempt succeeds when a response arrived with an ok (200-299) status and its body was read; DownloadSpec and FirstSuccess give its consequences |
| Download.AttemptError | src/app/api/convert/route.ts:123-135 | a rejected fetch keeps its own message; a non-ok response gives "HTTP error! status: " followed by digits that read back as its status |
| Download.FirstSuccess | src/app/api/convert/route.ts:113-130 | the index it returns is a successful outcome with only failures before it, or the length when nothing succeeds |
| Download.DownloadSpec | src/app/api/convert/route.ts:110-140 | one to three attempts; all but the last failed; the result is the last attempt's body exactly when it succeeded; otherwise three attempts and the message "Failed to download image after 3 attempts: " plus the third error |
| Download.Retried | src/app/api/convert/route.ts:132-138 | n failed attempts with their pauses make 2n log entries |
| Download.AttemptTraceCounts | src/app/api/convert/route.ts:110-140 | n attempts log n fetches of the same URL, n - 1 one-second pauses, and no other call |
| Download.AttemptTracePauses | src/app/api/convert/route.ts:132-138 | every pause comes right after an attempt and right before another one, and the log ends with an attempt, so there is no pause before the first attempt or after the final failure |
| Download.DownloadWithRetry | src/app/api/convert/route.ts:110-140 | the loop's result and call log equal DownloadSpec; its invariant keeps retries + attempts made == 3, with 0 < retries <= 3 |
| Convert.ValidateUpload | src/app/api/convert/route.ts:18-39 | accepts exactly a present file of at most 5 MiB and returns it unchanged; otherwise fails with "No image file provided" or "Image size should be less than 5MB" |
| Convert.ComposeVisionPrompt | src/app/api/convert/route.ts:54-58 | absent or empty details leave the template as it is; non-empty details give the template (or "null"), then the framing sentence, then the details |
| Convert.WithGuardrail | src/app/api/convert/route.ts:88-90 | the vision content is a prefix of the image prompt, and the rest of the prompt is the guardrail sentence |
| Convert.ServerError | src/app/api/convert/route.ts:164-171 | a thrown error becomes status 500 whose error is the thrown message, or the fallback text when that is empty |
| Convert.ConvertSpec | src/app/api/convert/route.ts:9-174 | every answer has status 200, 400 or 500, and it is 400 exactly when no call was made (within the inputs the model covers; see Left out) |
| Convert.Post | src/app/api/convert/route.ts:9-174 | the handler's response and call log equal ConvertSpec for every form and environment |
| ConvertProperties.MissingImageRejected | src/app/api/convert/route.ts:18-24 | no image field gives 400 "No image file provided" and zero vision, generation or download calls |
| ConvertProperties.OversizedImageRejected | src/app/api/convert/route.ts:33-39 | a size above 5*1024*1024 gives 400 "Image size should be less than 5MB" and zero upstream calls |
| ConvertProperties.BadRequestExactlyWhenInvalid | src/app/api/convert/route.ts:18-39 | status 400 if and only if the upload is invalid, if and only if no call is made; otherwise the first call is the vision call with the composed instruction; exactly 5 MiB is accepted |
| ConvertProperties.VisionPromptComposition | src/app/api/convert/route.ts:54-58 | non-empty details give template + framing sentence + details; absent or empty details leave the template as it is; a missing template renders as "null" |
| ConvertProperties.VisionPromptParts | src/app/api/convert/route.ts:54-58 | the composed instruction splits back into the template, the framing sentence and the details, in that order |
| ConvertProperties.GuardrailParts | src/app/api/convert/route.ts:88-90 | the vision content is a prefix of the image prompt, and the rest of the prompt is the guardrail sentence |
| ConvertProperties.EmptyVisionStops | src/app/api/convert/route.ts:82-85 | a null or empty vision content gives 500 "No prompt generated from GPT-4 Vision"; the only call is the vision call; no generation call and no download |
| ConvertProperties.GenerationPromptIsGuarded | src/app/api/convert/route.ts:82-100 | every generation call carries the non-empty vision content followed by the guardrail sentence |
| ConvertProperties.MissingUrlStops | src/app/api/convert/route.ts:102-107 | a generation reply without a URL gives 500 "No image URL received from DALL-E" after exactly the two model calls, with zero download attempts |
| ConvertProperties.UpstreamErrorPassesThrough | src/app/api/convert/route.ts:154-172 | an error thrown by the vision or generation call gives 500 with its message (or the fallback) and stops the pipeline at that call |
| ConvertProperties.FirstSuccessIsReturned | src/app/api/convert/route.ts:110-153 | with first success k < 3, the answer is outcome k's bytes unchanged with the fixed headers, after k + 1 attempts and k pauses |
| ConvertProperties.AllAttemptsFail | src/app/api/convert/route.ts:131-136 | three failures give 500 "Failed to download image after 3 attempts: " plus the third error's message, after exactly 3 attempts and 2 pauses |
| ConvertProperties.FailTwiceThenSucceed | src/app/api/convert/route.ts:110-140 | fail, fail, succeed returns the third outcome's bytes after exactly three attempts |
| ConvertProperties.DownloadingRunCalls | src/app/api/convert/route.ts:60-140 | a run that reaches the download logs the vision call, then the generation call with the guarded prompt, then the attempts and pauses of the retry loop |
| ConvertProperties.StoppedRunCalls | src/app/api/convert/route.ts:18-107 | a run that stops before the download logs at most two calls: the vision call first, then the generation call |
| ConvertProperties.CallBounds | src/app/api/convert/route.ts:110-140 | one request makes at most one vision call, one generation call, three downloads and two pauses; pauses = attempts - 1; every pause has an attempt right before it and right after it |
| ConvertProperties.ErrorsAfterValidationAre500 | src/app/api/convert/route.ts:145-172 | after validation the answer is the image with the fixed headers (200) or a 500 JSON error with a non-empty message |

## Left out

- The OpenAI client calls and `fetch` are inputs (`Effects.Environment`). Their fixed request parameters (model names, `max_tokens: 500`, image size and quality, the Accept and User-Agent headers) are not modelled.
- Reading the multipart body (`req.formData()`) is Next.js code. A malformed body would throw and answer 500. The model starts from the parsed fields.
- Form fields of the wrong kind are not modelled: an `image` field that holds text, and a `details` or `visionPrompt` field that holds a file. Each rests on JavaScript coercions of foreign objects. The model takes `image` to be a file or absent, and the two text fields to be strings or absent.
- Reading the upload (`file.arrayBuffer()`) is not modelled, and neither are `Buffer.from`, base64 encoding and the data URI. They are library calls, and the image bytes only reach the vision oracle through them. So a rejected `file.arrayBuffer()` is not modelled either. In the route that answers 500 before any upstream call; the model's "400 exactly when no call was made" holds only under this exclusion.
- The one-second wait is a logged `Sleep(1000)` entry. Time itself is not modelled.
- The `details`, `type` and `code` fields of the 500 body are not modelled. They come from `error.response`, `error.stack`, `error.name` and `error.code`, which are opaque runtime objects. Logging to the console is not modelled either.
- The two `ImageUploader.tsx` components, `page.tsx` and `layout.tsx` are browser UI code. This includes the client's own 30 MB check and the `dalleConfig` field, which the server never reads.

# BitNet chat back end — a Dafny model

This project models the server-side core of a small chat application. The application presents a "BitNet 1.58 2B" language model behind an OpenAI-style chat-completions endpoint. The core has three parts:

- **Model-file resolver** (`ModelDownloader`). It decides where the model weights come from, trying the following in order:
  1. In development, the bundled file under `public/`, unless a forced download is requested.
  2. A cached copy at `/tmp/ggml-model-i2_s.gguf`.
  3. A download from Hugging Face into `/tmp`.

  Any failure is reported as an error. `getModelPath` turns that error into the empty path.
- **Simulated model** (`BitNet`). Its pieces:
  - A configuration merged over defaults.
  - A load lifecycle: `isLoaded` is set once, and `modelPath` is replaced only by a non-empty resolved path.
  - The 32-bit rolling string hash.
  - A rule-based reply. The self-description wins when the prompt mentions "bitnet" or "que eres". Otherwise the programming reply is used when it mentions "código" or "programar". Otherwise one of three generic templates is chosen by hash, and it quotes the prompt.
  - Token and time bookkeeping for a generation.
  - The process-wide singleton.
- **Chat route** (`ChatRoute`). Its pieces:
  - Prompt assembly from the message list: the first system message or a default, then the last user message.
  - The apology text returned when generation throws.
  - The `POST` validation: 500 when the body cannot be parsed or is JSON `null`, 400 when `messages` is missing or not an array (which covers a body that is a number, a string or an array).
  - The atomic chat-completion object and its usage estimates.
  - The server-sent-event stream of word chunks ended by `[DONE]`, including the `JSON.stringify` string escaping in each frame.
  - The `GET` status object.

The filesystem is a `FileSystem` object holding a set of existing paths. These outside values are parameters of the model:
- the network fetch outcome;
- whether a file write succeeds;
- the environment variables;
- the wall clock.

`Text` models the JavaScript string operations the core uses: `toLowerCase`, `includes`, `split(' ')` and `join`. `Json` models `JSON.stringify` string quoting, with a parser for the round trip.

The main proved properties:
- The resolver's order of precedence and its failure cases.
- A successful resolution is stable: the next call returns the same path and touches nothing.
- `simpleHash` computes the 32-bit polynomial hash. The shift-subtract-`&` steps are proved equal to `ToInt32(31*h + c)`.
- The reply kinds are mutually exclusive, with an if-and-only-if for each trigger.
- A conversation without a system message always gets the self-description, because the default system text says "BitNet". This links the route to the generator.
- The apology is sent exactly when a message entry is `null`.
- Editing an earlier user turn does not change the prompt.
- The stream reassembles to exactly the atomic reply: the JSON escaping round-trips and the chunks rebuild the text.

Facts about the code that the model keeps as they are:
- The prompt labels are "Humano:" and "Asistente:".
- The stream is split on single spaces only, not on any whitespace.
- The code has no "degraded" flag and no single-flight guard on loading: `load` simply proceeds with whatever path it gets, and a missing artifact only means that `modelPath` keeps its initial value.

## Model

| member | source | states |
|---|---|---|
| ModelDownloader.DownloadModel | app/lib/model-downloader.ts:19-83 | the returned path or error and the new set of files follow the ordered policy: development local file, then cached `/tmp` file, then `mkdir /tmp` and download, which records the cache file only when fetch, status, body and write all succeed |
| ModelDownloader.Resolve | app/lib/model-downloader.ts:19-83 | defines the resolution order (local file, cache file, download); it never removes a path, adds at most `/tmp` and the cache file, and a returned path exists afterwards |
| ModelDownloader.LocalPath | app/lib/model-downloader.ts:27 | defines the bundled file's location under the working directory's `public/` |
| ModelDownloader.ModelPathFor | app/lib/model-downloader.ts:85-93 | the path is empty exactly when the download fails, and is otherwise the local file or the cache file |
| ModelDownloader.GetModelPath | app/lib/model-downloader.ts:85-93 | returns the path of the resolution (empty on any failure) and leaves the filesystem as the download left it |
| ModelDownloader.GetModelInfo | app/lib/model-downloader.ts:95-97 | the descriptor's path is the cache path and its URL ends with the model file name |
| ModelDownloader.FileSystem.ExistsSync | app/lib/model-downloader.ts:28 | reports exactly whether the path exists |
| ModelDownloader.FileSystem.MkdirSync | app/lib/model-downloader.ts:49 | adds the directory and nothing else |
| ModelDownloader.FileSystem.WriteFile | app/lib/model-downloader.ts:74 | adds the file exactly when the write succeeds |
| ModelDownloader.DevelopmentLocalFileWins | app/lib/model-downloader.ts:26-32 | in development without force, an existing bundled file is returned whatever the network or disk would do, and no path changes |
| ModelDownloader.ForceSkipsLocalFile | app/lib/model-downloader.ts:23-26 | with `FORCE_MODEL_DOWNLOAD=true` the result is the same as in production and is never the bundled file |
| ModelDownloader.CachedFileWins | app/lib/model-downloader.ts:38-41 | when the local branch does not apply and the cache file exists, it is returned and nothing is created |
| ModelDownloader.FailureLeavesNoCacheFile | app/lib/model-downloader.ts:49-82 | a failed resolution leaves no cache file, before or after, and creates only `/tmp` |
| ModelDownloader.DownloadFailureCases | app/lib/model-downloader.ts:52-82 | when neither earlier branch applies, failure happens exactly on a network error, a non-2xx status, an unread body or a failed write; success adds `/tmp` and the cache file |
| ModelDownloader.SuccessIsStable | app/lib/model-downloader.ts:35-77 | after a successful resolution, a second one in the same environment returns the same path and changes no file, whatever the network does |
| ModelDownloader.ModelPathEmptyOnlyOnFailure | app/lib/model-downloader.ts:85-93 | the path is empty if and only if there is no usable local file, no cache file, and the fetch, status, body or write fails |
| BitNet.MergeConfig | app/lib/bitnet.ts:26-33 | each field is the override when one is given and otherwise its default (0.7, 0.9, 40, 512, 2048) |
| BitNet.SingletonConfigIsDefault | app/lib/bitnet.ts:161-165 | the singleton's overrides give exactly the default configuration, including topK 40 and contextLength 2048 |
| BitNet.FullOverrideIsIdentity | app/lib/bitnet.ts:26-33 | overriding every field yields exactly the configuration given |
| BitNet.ToInt32 | app/lib/bitnet.ts:134-135 | the result is a signed 32-bit integer congruent to the input modulo 2^32 |
| BitNet.ShiftStepIsPolynomial | app/lib/bitnet.ts:134-135 | `((h << 5) - h + c) & ...` in 32-bit arithmetic equals `ToInt32(31*h + c)` |
| BitNet.RollingHash | app/lib/bitnet.ts:130-138 | the hash of every prefix stays within the signed 32-bit range |
| BitNet.HashOf | app/lib/bitnet.ts:137 | the absolute hash is at most 2^31 |
| BitNet.TemplateIndex | app/lib/bitnet.ts:121-122 | the template index is below the number of generic templates |
| BitNet.ResponseKindsDiffer | app/lib/bitnet.ts:105-122 | the self-description, the programming reply and the three generic templates start with ¡, C, E, I and G respectively, so no two of them coincide |
| BitNet.MentionsSelf | app/lib/bitnet.ts:102-105 | defines the first trigger: the lower-cased prompt includes "bitnet" or "que eres" |
| BitNet.MentionsCode | app/lib/bitnet.ts:109-110 | defines the second trigger: the lower-cased prompt includes "código" or "programar" |
| BitNet.GenericReplies | app/lib/bitnet.ts:115-119 | defines the three general templates, each interpolating the prompt between double quotes |
| BitNet.IntelligentResponse | app/lib/bitnet.ts:101-122 | defines the selection: self-description, else programming reply, else the template at `hash % 3` |
| BitNet.SelfTriggerAnyCase | app/lib/bitnet.ts:102-107 | a self-reference trigger written in any case in the prompt selects the self-description |
| BitNet.ProductNameSelfDescribes | app/lib/bitnet.ts:102-107 | a prompt containing "BitNet" as the product writes it gets the self-description |
| BitNet.CodeTriggerAnyCase | app/lib/bitnet.ts:102-112 | a code trigger written in any case selects the programming reply when no self reference does |
| BitNet.SelfReferenceWins | app/lib/bitnet.ts:102-107 | the reply is the self-description if and only if the lower-cased prompt contains "bitnet" or "que eres" |
| BitNet.ProgrammingReplyExactly | app/lib/bitnet.ts:109-112 | the reply is the programming reply if and only if there is no self reference and the prompt contains "código" or "programar" |
| BitNet.GenericReplyQuotesPrompt | app/lib/bitnet.ts:114-122 | otherwise the reply is the generic template chosen by hash modulo 3, and it contains the prompt in quotes |
| BitNet.BitNetModel.constructor | app/lib/bitnet.ts:24-34 | a new model is not loaded, keeps the given path and has the merged configuration |
| BitNet.BitNetModel.SimulateModelLoading | app/lib/bitnet.ts:53-74 | the files follow the resolver; the model path is replaced by the resolved path only when that path is non-empty |
| BitNet.BitNetModel.Load | app/lib/bitnet.ts:36-51 | after loading, the model is loaded with the path and file effects of the simulated loading |
| BitNet.BitNetModel.SimpleHash | app/lib/bitnet.ts:130-138 | the loop returns the absolute value of the 32-bit rolling hash of the string |
| BitNet.BitNetModel.GenerateIntelligentResponse | app/lib/bitnet.ts:101-128 | returns the rule-based reply of the prompt |
| BitNet.BitNetModel.Generate | app/lib/bitnet.ts:76-99 | the text is the rule-based reply, the token count is the ceiling of its length over 4, the time is the elapsed time; a loaded model and the files are left unchanged, an unloaded one is loaded first with the effects of `Load` |
| BitNet.BitNetModel.IsModelLoaded | app/lib/bitnet.ts:140-142 | reports exactly the loaded flag |
| BitNet.BitNetModel.GetModelInfo | app/lib/bitnet.ts:144-153 | the summary names the model as the self-description does, with 2B parameters and 1.58-bit quantisation |
| BitNet.Singleton.constructor | app/lib/bitnet.ts:157 | the process starts with no instance |
| BitNet.Singleton.GetBitNetInstance | app/lib/bitnet.ts:159-173 | the first call creates a fresh instance with the default configuration, later calls return the same one; the result is always loaded, an already-loaded one is untouched |
| ChatRoute.HasNull | app/api/chat/route.ts:21-24 | defines the input on which `find` or `filter` throws: a `null` entry |
| ChatRoute.FindSystem | app/api/chat/route.ts:21 | defines `find(m => m.role === 'system')?.content` |
| ChatRoute.SystemPart | app/api/chat/route.ts:21-22 | defines the system text: the found content, or the default when missing or empty |
| ChatRoute.UserPart | app/api/chat/route.ts:24-25 | defines the last user message's content, or `''` |
| ChatRoute.Prompt | app/api/chat/route.ts:27-31 | defines the prompt: system text, blank line, `Humano: ` and the user text, blank line, `Asistente:` |
| ChatRoute.ChatReply | app/api/chat/route.ts:16-40 | defines the text `generateWithBitNet` resolves to: the apology on a null entry, else the reply to the prompt |
| ChatRoute.FirstSystemMessage | app/api/chat/route.ts:21-22 | the system part is the first system message's content, or the default when that content is empty |
| ChatRoute.NoSystemMessage | app/api/chat/route.ts:21-22 | without a system message the default system text is used |
| ChatRoute.LastUserMessage | app/api/chat/route.ts:24-25 | the user part is the content of the last user message |
| ChatRoute.NoUserMessage | app/api/chat/route.ts:24-25 | without a user message the user part is empty |
| ChatRoute.EarlierUserTurnIgnored | app/api/chat/route.ts:21-31 | replacing a user message that is followed by a later one leaves the prompt unchanged |
| ChatRoute.DefaultSystemMentionsBitNet | app/api/chat/route.ts:22 | the lower-cased default system text contains "bitnet" |
| ChatRoute.NoSystemMessageSelfDescribes | app/api/chat/route.ts:16-34 | a conversation without null entries or a system message always gets the self-description |
| ChatRoute.UserMentionOfBitNetSelfDescribes | app/api/chat/route.ts:24-34 | a last user message mentioning "bitnet" in any case always gets the self-description |
| ChatRoute.ApologyExactlyOnFailure | app/api/chat/route.ts:36-39 | the reply is the apology if and only if an entry is null (the only failure the route can meet), and the reply is never empty |
| ChatRoute.JoinedLength | app/api/chat/route.ts:112 | defines the length of `messages.join(' ')`: 15 characters per object entry, none per `null`, and one separator between entries |
| Text.Decimal | app/api/chat/route.ts:99 | defines `${n}` for a non-negative integer: its decimal digits, most significant first; at least one digit, all of them in 0-9 |
| ChatRoute.AtomicCompletion | app/api/chat/route.ts:98-115 | one `stop` choice holding the reply as assistant content; completion tokens are length/4, prompt tokens are the joined-message length/4, and total is their sum; `created` is the clock in whole seconds; model id is fixed |
| ChatRoute.Chunks | app/api/chat/route.ts:64-66 | defines the chunks: the first word, then each later word after a space |
| ChatRoute.DataFrame | app/api/chat/route.ts:67-73 | defines one data event: `data: ` and the JSON delta object holding the quoted chunk, then a blank line |
| ChatRoute.SseBody | app/api/chat/route.ts:64-78 | defines the stream body: one data event per chunk, then `data: [DONE]` |
| ChatRoute.ChunksRebuildResponse | app/api/chat/route.ts:64-66 | concatenating the word chunks gives back the reply exactly |
| ChatRoute.ParseDataFrame | app/api/chat/route.ts:67-73 | each data frame parses back to the delta holding its chunk |
| ChatRoute.StreamRoundTrip | app/api/chat/route.ts:64-78 | a reader reassembling the whole event stream recovers the reply exactly |
| ChatRoute.StreamShape | app/api/chat/route.ts:64-78 | the stream has one frame per space-separated word plus a final `[DONE]` frame, and frame i carries chunk i |
| ChatRoute.StreamController.constructor | app/api/chat/route.ts:58 | a new stream is open and empty |
| ChatRoute.StreamController.Enqueue | app/api/chat/route.ts:73 | appends the frame to an open stream |
| ChatRoute.StreamController.Close | app/api/chat/route.ts:78 | closes the stream without adding to it |
| ChatRoute.GenerateWithBitNet | app/api/chat/route.ts:16-40 | returns the reply to the assembled prompt, or the apology on a null entry; the singleton is created if missing, kept if present, and loaded afterwards; a loaded instance and the files are untouched, otherwise the files follow the resolver and `modelPath` becomes the resolved path when it is non-empty |
| ChatRoute.SendWords | app/api/chat/route.ts:64-78 | the loop enqueues exactly the event-stream frames of the reply and closes the stream |
| ChatRoute.StartStream | app/api/chat/route.ts:59-79 | the stream receives exactly the event-stream body of the chat reply and is closed; the singleton, its `modelPath` and the files change exactly as for `generateWithBitNet` |
| ChatRoute.Post | app/api/chat/route.ts:43-125 | returns the response the route defines; a rejected request touches neither the model nor the files; an accepted one changes the singleton, its `modelPath` and the files exactly as `generateWithBitNet` does, so after a successful download the cache file exists, and later requests reuse the loaded instance without touching the files |
| ChatRoute.PostStatus | app/api/chat/route.ts:44-124 | 500 exactly when the body does not parse or is `null`, 400 exactly when `messages` is missing or not an array, and an event stream exactly when a valid request asks for streaming |
| ChatRoute.StreamMatchesAtomic | app/api/chat/route.ts:57-116 | the streamed answer reassembles to the same content as the atomic answer's message |
| ChatRoute.PostResponse | app/api/chat/route.ts:43-125 | defines the answer to each request: 500, 400, the event stream or the atomic completion |
| ChatRoute.Get | app/api/chat/route.ts:128-134 | status 200 with the fixed model id and the given timestamp |
| Json.Escape | app/api/chat/route.ts:67-71 | defines `JSON.stringify`'s escaping of a string's characters: `\"`, `\\`, the short control escapes and `\u00xx` for the other control characters |
| Json.Quote | app/api/chat/route.ts:67-71 | defines a JSON string literal: the escaped text between double quotes |
| Json.HexDigit | app/api/chat/route.ts:67-71 | the digit reads back as its value |
| Json.UnquoteEscapeChar | app/api/chat/route.ts:67-71 | the escape of every character parses back to that character |
| Json.UnquoteQuote | app/api/chat/route.ts:67-71 | a quoted string parses back to the original string and leaves the rest of the input untouched |
| Text.Lower | app/lib/bitnet.ts:102 | defines `toLowerCase` character by character, for the ASCII and Latin-1 letters |
| Text.LowerIsLowerCase | app/lib/bitnet.ts:102 | the lower-cased string has no upper-case letter |
| Text.LowerOfLowerCase | app/lib/bitnet.ts:105 | a string without upper-case letters, such as each trigger word, is its own lower-casing |
| Text.LowerIdempotent | app/lib/bitnet.ts:102 | lower-casing twice is lower-casing once |
| Text.LowerContains | app/lib/bitnet.ts:102-110 | if a string contains a word, its lower-casing contains the lower-cased word |
| Text.Contains | app/lib/bitnet.ts:105 | defines `includes`: the word occurs at some index |
| Text.Split | app/api/chat/route.ts:64 | defines `split(' ')`: the pieces between separators, in order; there is always at least one |
| Text.Join | app/api/chat/route.ts:64-66 | defines joining pieces with the separator, the inverse of `Split` |
| Text.SplitPartsLackSeparator | app/api/chat/route.ts:64 | no piece of `split(' ')` contains the separator |
| Text.SplitCharacterised | app/api/chat/route.ts:64 | the pieces of `split(' ')` are exactly the separator-free pieces that join back to the string (both directions) |
| Text.JoinSplit | app/api/chat/route.ts:64 | joining the split parts with the separator gives back the string |
| Text.SplitJoin | app/api/chat/route.ts:64 | splitting parts that lack the separator after joining gives back the parts |

## Left out

- Delays are not modelled: the 3000 ms wait after a path is found, the 2000 ms wait in simulation mode, the 300–500 ms random generation delay and the 50 ms pause between stream frames. The clock is a parameter.
- Console logging is not modelled, including the downloaded size in MB and the log of the last message's content.
- Concurrency is not modelled. Two overlapping requests can both start a load. The `ReadableStream` constructor calls `start` at once, so generation begins inside `POST`, but its first `await` lets `POST` return while frames are still being produced; the model runs `start` to completion inside `POST` and gives the frames that are eventually enqueued. Here every call runs to completion, one at a time.
- Web-platform details are not modelled: `ReadableStream`, `TextEncoder` (UTF-8 encoding of the frames), HTTP headers, `NextResponse` serialisation and the ISO timestamp format. The timestamp is a string parameter.
- Text.Lower: only ASCII and Latin-1 letters are lower-cased, not the full Unicode case mapping of `toLowerCase`. That covers every letter in the trigger words.
- BitNet.BitNetModel.SimpleHash: a character is a Unicode scalar value. A character outside the Basic Multilingual Plane counts once, while JavaScript would count two UTF-16 units; the same applies to `length` in the token estimates. A lone surrogate, which a JSON body can carry as `"\ud800"` and `JSON.stringify` would escape, cannot be represented at all.
- ModelDownloader.LocalPath: `path.join` normalisation is reduced to plain concatenation of the working directory, `/public/` and the file name.
- The file contents are not modelled, nor a partial file left by a failed `writeFile`. A failed write adds no path.
- `mkdirSync` is treated as never failing. Errors thrown by `existsSync` are not modelled.
- Message entries are either `null` or objects that carry only a role and string content. Other JSON values in the array, non-string content and objects with further keys are not modelled. In `join`, an object entry counts as the 15 characters of `[object Object]` and a `null` entry as none. Other request fields are ignored.
- ChatRoute.JoinedLength: an entry object with its own `toString` key (for example `{"role":"user","content":"hola","toString":"x"}`) makes `join(' ')` throw a TypeError; here every object entry counts as 15 characters, because entries carry only a role and a content.
- ChatRoute.PostResponse: for such an entry the source's atomic branch gives 500 from its `catch`, after `generateWithBitNet` has already created and loaded the singleton; here it gives 200 with a completion. The streaming branch never calls `join`, so it is unaffected.
- ChatRoute.PostStatus: its "500 exactly when the body does not parse or is `null`" holds for entries that carry only a role and a content; the 500 that `join` causes for an entry with its own `toString` key is outside the model.
- The `catch` in `load`, the `catch` in `generate` and `controller.error` in the stream are not modelled. Nothing in their modelled bodies can throw, so no model path reaches them.
- BitNet.MergeConfig: an override is either given or absent. A field explicitly set to `undefined` is copied by the spread and would replace the default; that case is not modelled.
- ChatRoute.AtomicCompletion: the `id` and `created` fields come from one clock reading `now`; the source reads `Date.now()` twice, and the two readings may differ by a millisecond.
- ChatRoute.Post: `body.stream` is a boolean here; the source tests it for truthiness, so any truthy JSON value would also select streaming.

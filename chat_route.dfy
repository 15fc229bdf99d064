/**
 * The chat route of `app/api/chat/route.ts`: request validation, prompt
 * assembly from the conversation, the fallback for a failed generation, the
 * atomic JSON completion, the Server-Sent-Events stream and the liveness
 * probe.
 *
 * The request is the already-parsed JSON body; `Date.now()` readings and the
 * probe's timestamp are inputs. The stream body is the sequence of strings
 * the stream controller receives, before UTF-8 encoding.
 */
module ChatRoute {
  import opened Wrappers
  import Text
  import Json
  import BitNet
  import ModelDownloader

  // Requests

  /** One element of `messages`: JSON null, or an object with a role and a content (a missing content reads as ""). */
  datatype Entry = NullEntry | Msg(role: string, content: string)

  /** The `messages` field: missing or falsy, present but not an array, or an array. */
  datatype MessagesField = Absent | NotAnArray | Entries(entries: seq<Entry>)

  /** What `request.json()` yields: a parse failure, JSON null, or a value with the two fields the route reads. */
  datatype Request = Unparseable | NullBody | Body(messages: MessagesField, stream: bool)

  // Texts that proofs look inside are written as concatenations of short
  // pieces (the words a lemma needs, the head of a frame), which the verifier
  // handles far better than one long literal; the text is the source's.

  /** The system text used when the conversation has none. */
  const DefaultSystem: string := "Eres " + "BitNet" + " 1.58 2B, un asistente AI ultra-eficiente y amigable."

  /** The reply when generation fails. */
  const Apology: string := "❌ " + "Error generando respuesta. Por favor intenta de nuevo."

  const MessagesRequired: string := "Mensajes requeridos"

  const InternalError: string := "Error interno del servidor"

  const ModelId: string := "bitnet-b1.58-2b-4t"

  // Prompt assembly

  predicate HasRole(e: Entry, role: string) {
    e.Msg? && e.role == role
  }

  /** Some element is null, so `m.role` throws inside `find` or `filter`. */
  predicate HasNull(entries: seq<Entry>) {
    exists i | 0 <= i < |entries| :: entries[i].NullEntry?
  }

  /** `messages.find(m => m.role === 'system')?.content`. */
  function FindSystem(entries: seq<Entry>): Option<string> {
    if |entries| == 0 then None
    else if HasRole(entries[0], "system") then Some(entries[0].content)
    else FindSystem(entries[1..])
  }

  /** The system part: the first system message's content, or the default when there is none or it is empty. */
  function SystemPart(entries: seq<Entry>): string {
    match FindSystem(entries)
    case Some(c) => if c != "" then c else DefaultSystem
    case None => DefaultSystem
  }

  /** The user part: the content of the last user message, or ''. */
  function UserPart(entries: seq<Entry>): string {
    if |entries| == 0 then ""
    else if HasRole(entries[|entries| - 1], "user") then entries[|entries| - 1].content
    else UserPart(entries[..|entries| - 1])
  }

  /** The prompt template of `generateWithBitNet`. */
  function Prompt(entries: seq<Entry>): string {
    SystemPart(entries) + "\n\nHumano: " + UserPart(entries) + "\n\nAsistente:"
  }

  /** The text `generateWithBitNet` resolves to: the apology when it throws, the generated text otherwise. */
  function ChatReply(entries: seq<Entry>): string {
    if HasNull(entries) then Apology else BitNet.IntelligentResponse(Prompt(entries))
  }

  /** The system part comes from the first system message. */
  lemma {:induction false} FirstSystemMessage(entries: seq<Entry>, i: nat)
    requires i < |entries| && HasRole(entries[i], "system")
    requires forall j :: 0 <= j < i ==> !HasRole(entries[j], "system")
    ensures FindSystem(entries) == Some(entries[i].content)
    ensures SystemPart(entries) == if entries[i].content != "" then entries[i].content else DefaultSystem
  {
    if i > 0 {
      FirstSystemMessage(entries[1..], i - 1);
    }
  }

  /** Without a system message the system part is the default. */
  lemma {:induction false} NoSystemMessage(entries: seq<Entry>)
    requires forall j :: 0 <= j < |entries| ==> !HasRole(entries[j], "system")
    ensures FindSystem(entries) == None && SystemPart(entries) == DefaultSystem
  {
    if |entries| > 0 {
      NoSystemMessage(entries[1..]);
    }
  }

  /** The user part comes from the last user message. */
  lemma {:induction false} LastUserMessage(entries: seq<Entry>, i: nat)
    requires i < |entries| && HasRole(entries[i], "user")
    requires forall j :: i < j < |entries| ==> !HasRole(entries[j], "user")
    ensures UserPart(entries) == entries[i].content
  {
    if i < |entries| - 1 {
      LastUserMessage(entries[..|entries| - 1], i);
    }
  }

  /** Without a user message the user part is ''. */
  lemma {:induction false} NoUserMessage(entries: seq<Entry>)
    requires forall j :: 0 <= j < |entries| ==> !HasRole(entries[j], "user")
    ensures UserPart(entries) == ""
  {
    if |entries| > 0 {
      NoUserMessage(entries[..|entries| - 1]);
    }
  }

  /** Earlier user turns do not reach the prompt: rewriting one that a later user turn follows leaves the prompt as it was. */
  lemma EarlierUserTurnIgnored(entries: seq<Entry>, i: nat, k: nat, content: string)
    requires i < k < |entries| && HasRole(entries[i], "user") && HasRole(entries[k], "user")
    ensures Prompt(entries[i := Msg("user", content)]) == Prompt(entries)
  {
    SameUserPart(entries, i, k, content);
    SameSystemPart(entries, i, content);
  }

  lemma SameUserPart(entries: seq<Entry>, i: nat, k: nat, content: string)
    requires i < k < |entries| && HasRole(entries[i], "user") && HasRole(entries[k], "user")
    ensures UserPart(entries[i := Msg("user", content)]) == UserPart(entries)
  {
    var changed := entries[i := Msg("user", content)];
    LastUserExists(entries, k);
    var last :| k <= last < |entries| && HasRole(entries[last], "user")
      && forall j :: last < j < |entries| ==> !HasRole(entries[j], "user");
    LastUserMessage(entries, last);
    LastUserMessage(changed, last);
  }

  lemma SameSystemPart(entries: seq<Entry>, i: nat, content: string)
    requires i < |entries| && HasRole(entries[i], "user")
    ensures SystemPart(entries[i := Msg("user", content)]) == SystemPart(entries)
  {
    var changed := entries[i := Msg("user", content)];
    if s :| 0 <= s < |entries| && HasRole(entries[s], "system") {
      var first := FirstSystemExists(entries, s);
      FirstSystemMessage(entries, first);
      FirstSystemMessage(changed, first);
    } else {
      NoSystemMessage(entries);
      NoSystemMessage(changed);
    }
  }

  lemma {:induction false} LastUserExists(entries: seq<Entry>, k: nat)
    requires k < |entries| && HasRole(entries[k], "user")
    ensures exists last :: (k <= last < |entries| && HasRole(entries[last], "user")
      && forall j :: last < j < |entries| ==> !HasRole(entries[j], "user"))
    decreases |entries| - k
  {
    if exists j :: k < j < |entries| && HasRole(entries[j], "user") {
      var j :| k < j < |entries| && HasRole(entries[j], "user");
      LastUserExists(entries, j);
    }
  }

  lemma {:induction false} FirstSystemExists(entries: seq<Entry>, s: nat) returns (first: nat)
    requires s < |entries| && HasRole(entries[s], "system")
    ensures first <= s && HasRole(entries[first], "system")
    ensures forall j :: 0 <= j < first ==> !HasRole(entries[j], "system")
  {
    if exists j :: 0 <= j < s && HasRole(entries[j], "system") {
      var j :| 0 <= j < s && HasRole(entries[j], "system");
      first := FirstSystemExists(entries, j);
    } else {
      first := s;
    }
  }

  /** The default system instruction names the model, once lower-cased. */
  lemma DefaultSystemMentionsBitNet()
    ensures Text.Contains(Text.Lower(DefaultSystem), "bitnet")
  {
    assert Text.Lower("BitNet") == "bitnet";
    Text.ContainsSelf("bitnet");
    Text.LowerContainsInfix("Eres ", "BitNet", " 1.58 2B, un asistente AI ultra-eficiente y amigable.", "bitnet");
  }

  /**
   * A conversation without a system message is always answered with the
   * self-description: the default instruction opens the prompt and names
   * the model.
   */
  lemma NoSystemMessageSelfDescribes(entries: seq<Entry>)
    requires !HasNull(entries)
    requires forall j :: 0 <= j < |entries| ==> !HasRole(entries[j], "system")
    ensures ChatReply(entries) == BitNet.SelfDescription
  {
    NoSystemMessage(entries);
    DefaultSystemMentionsBitNet();
    SystemMentionInPrompt(entries, "bitnet");
    BitNet.SelfReferenceWins(Prompt(entries));
  }

  /** A word in the lower-cased system part is in the lower-cased prompt. */
  lemma SystemMentionInPrompt(entries: seq<Entry>, t: string)
    requires Text.Contains(Text.Lower(SystemPart(entries)), t)
    ensures Text.Contains(Text.Lower(Prompt(entries)), t)
  {
    var u := UserPart(entries);
    Text.LowerContainsPrefix(SystemPart(entries), "\n\nHumano: " + u + "\n\nAsistente:", t);
    assert SystemPart(entries) + ("\n\nHumano: " + u + "\n\nAsistente:") == Prompt(entries);
  }

  /** A last user turn that names the model gets the self-description, whatever the system message says. */
  lemma UserMentionOfBitNetSelfDescribes(entries: seq<Entry>)
    requires !HasNull(entries)
    requires Text.Contains(Text.Lower(UserPart(entries)), "bitnet")
    ensures ChatReply(entries) == BitNet.SelfDescription
  {
    Text.LowerContainsInfix(SystemPart(entries) + "\n\nHumano: ", UserPart(entries), "\n\nAsistente:", "bitnet");
    BitNet.SelfReferenceWins(Prompt(entries));
  }

  /** The reply is the apology exactly when generation throws, and is never empty. */
  lemma ApologyExactlyOnFailure(entries: seq<Entry>)
    ensures ChatReply(entries) == Apology <==> HasNull(entries)
    ensures |ChatReply(entries)| > 0
  {
    var p := Prompt(entries);
    BitNet.ResponseKindsDiffer(p);
    if !HasNull(entries) {
      var r := BitNet.IntelligentResponse(p);
      assert r[0] in "¡CEIG";
      assert Apology[0] == '❌';
    }
  }

  // The atomic completion

  datatype ChatMessage = ChatMessage(role: string, content: string)

  datatype Choice = Choice(index: nat, message: ChatMessage, finishReason: string)

  /** Token estimates are JavaScript numbers, divided by 4 without rounding: reals here. */
  datatype Usage = Usage(promptTokens: real, completionTokens: real, totalTokens: real)

  datatype Completion = Completion(
    id: string, object: string, created: int, model: string, choices: seq<Choice>, usage: Usage)

  /** The length of `String(element)` inside `join`: '' for null, "[object Object]" for an object. */
  function EntryStringLength(e: Entry): nat {
    match e
    case NullEntry => 0
    case Msg(_, _) => 15
  }

  /** `messages.join(' ').length`. */
  function JoinedLength(entries: seq<Entry>): nat {
    if |entries| == 0 then 0
    else if |entries| == 1 then EntryStringLength(entries[0])
    else EntryStringLength(entries[0]) + 1 + JoinedLength(entries[1..])
  }

  /**
   * The non-streaming body: exactly one choice carrying the response, and
   * token estimates that add up; `now` is the `Date.now()` reading.
   */
  function AtomicCompletion(response: string, entries: seq<Entry>, now: nat): (c: Completion)
    ensures |c.choices| == 1 && c.choices[0] == Choice(0, ChatMessage("assistant", response), "stop")
    ensures c.usage.totalTokens == c.usage.promptTokens + c.usage.completionTokens
    ensures 4.0 * c.usage.completionTokens == |response| as real
    ensures 4.0 * c.usage.promptTokens == JoinedLength(entries) as real
    ensures c.created * 1000 <= now < c.created * 1000 + 1000
    ensures c.model == ModelId
  {
    Completion(
      "chatcmpl-" + Text.Decimal(now),
      "chat.completion",
      now / 1000,
      ModelId,
      [Choice(0, ChatMessage("assistant", response), "stop")],
      Usage(JoinedLength(entries) as real / 4.0, |response| as real / 4.0,
            (JoinedLength(entries) + |response|) as real / 4.0))
  }

  // The event stream

  /** The stream's pieces of the response: the first word bare, every later word after one space. */
  function Chunks(words: seq<string>): seq<string>
    requires |words| >= 1
  {
    [words[0]] + Spaced(words[1..])
  }

  function Spaced(words: seq<string>): seq<string> {
    seq(|words|, i requires 0 <= i < |words| => " " + words[i])
  }

  function Concat(parts: seq<string>): string {
    if |parts| == 0 then "" else parts[0] + Concat(parts[1..])
  }

  /** The JSON around the quoted chunk in a data event. */
  const DeltaOpen: string := "{\"choices\":[{\"delta\":" + "{\"content\":"
  const DeltaClose: string := "}}]}"

  /** A data event up to and including the chunk's opening quote, and after its closing quote. */
  const DeltaPrefix: string := "data: " + DeltaOpen + "\""
  const DeltaSuffix: string := DeltaClose + "\n\n"

  /** The terminal event. */
  const DoneFrame: string := "data: " + "[DONE]\n\n"

  /** The event for one chunk: `data: ${JSON.stringify({ choices: [{ delta: { content: chunk } }] })}\n\n`. */
  function DataFrame(chunk: string): string {
    "data: " + DeltaOpen + Json.Quote(chunk) + DeltaClose + "\n\n"
  }

  function DataFrames(chunks: seq<string>): seq<string> {
    seq(|chunks|, i requires 0 <= i < |chunks| => DataFrame(chunks[i]))
  }

  /** The whole stream body for a response: one data event per word, then the terminal event. */
  function SseBody(response: string): seq<string> {
    DataFrames(Chunks(Text.Split(response, ' '))) + [DoneFrame]
  }

  /** What a reader of the stream sees in one event. */
  datatype SseEvent = Delta(content: string) | Done

  /** Reads one event back: the terminal sentinel, or a delta whose JSON string is decoded. */
  function ParseFrame(frame: string): Option<SseEvent> {
    if frame == DoneFrame then Some(Done)
    else if |DeltaPrefix| <= |frame| && frame[..|DeltaPrefix|] == DeltaPrefix then
      match Json.Unquote(frame[|DeltaPrefix|..])
      case Some((content, rest)) => if rest == DeltaSuffix then Some(Delta(content)) else None
      case None => None
    else None
  }

  /** The text a reader rebuilds: the deltas in order, up to a terminal event that must come last. */
  function Reassemble(frames: seq<string>): Option<string> {
    if |frames| == 0 then None
    else match ParseFrame(frames[0])
      case Some(Done) => if |frames| == 1 then Some("") else None
      case Some(Delta(c)) =>
        (match Reassemble(frames[1..])
         case Some(r) => Some(c + r)
         case None => None)
      case None => None
  }

  lemma {:induction false} ConcatSpaced(words: seq<string>)
    requires |words| >= 1
    ensures Concat(Spaced(words)) == " " + Text.Join(words, ' ')
    decreases |words|
  {
    var sp := Spaced(words);
    assert sp[1..] == Spaced(words[1..]);
    if |words| > 1 {
      ConcatSpaced(words[1..]);
    } else {
      assert Spaced(words[1..]) == [];
    }
  }

  /** Concatenating the chunks of a response gives back the response exactly. */
  lemma ChunksRebuildResponse(response: string)
    ensures Concat(Chunks(Text.Split(response, ' '))) == response
  {
    var words := Text.Split(response, ' ');
    var cs := Chunks(words);
    assert cs[1..] == Spaced(words[1..]);
    if |words| > 1 {
      ConcatSpaced(words[1..]);
    } else {
      assert Spaced(words[1..]) == [];
    }
    Text.JoinSplit(response, ' ');
  }

  /** A data event is read back as a delta carrying its chunk. */
  lemma ParseDataFrame(chunk: string)
    ensures ParseFrame(DataFrame(chunk)) == Some(Delta(chunk))
  {
    var f := DataFrame(chunk);
    var body := Json.Escape(chunk) + "\"" + DeltaSuffix;
    assert f == DeltaPrefix + body;
    assert f[6] == DeltaOpen[0] == '{';
    assert DoneFrame[6] == '[';
    assert f[..|DeltaPrefix|] == DeltaPrefix && f[|DeltaPrefix|..] == body;
    Json.UnquoteEscaped(chunk, DeltaSuffix);
  }

  lemma {:induction false} ReassembleFrames(chunks: seq<string>)
    ensures Reassemble(DataFrames(chunks) + [DoneFrame]) == Some(Concat(chunks))
    decreases |chunks|
  {
    var frames := DataFrames(chunks) + [DoneFrame];
    if |chunks| == 0 {
      assert frames == [DoneFrame];
    } else {
      ParseDataFrame(chunks[0]);
      assert frames[0] == DataFrame(chunks[0]);
      assert frames[1..] == DataFrames(chunks[1..]) + [DoneFrame];
      ReassembleFrames(chunks[1..]);
    }
  }

  /** Reading the stream back event by event rebuilds the response exactly. */
  lemma StreamRoundTrip(response: string)
    ensures Reassemble(SseBody(response)) == Some(response)
  {
    ReassembleFrames(Chunks(Text.Split(response, ' ')));
    ChunksRebuildResponse(response);
  }

  /**
   * The stream has one data event per word of `response.split(' ')`, at
   * least one even for an empty response, and exactly one terminal event,
   * the last.
   */
  lemma StreamShape(response: string)
    ensures |SseBody(response)| == |Text.Split(response, ' ')| + 1 >= 2
    ensures SseBody(response)[|SseBody(response)| - 1] == DoneFrame
    ensures forall i :: 0 <= i < |SseBody(response)| - 1 ==>
      SseBody(response)[i] != DoneFrame
      && ParseFrame(SseBody(response)[i]) == Some(Delta(Chunks(Text.Split(response, ' '))[i]))
  {
    var body := SseBody(response);
    forall i | 0 <= i < |body| - 1
      ensures body[i] != DoneFrame && ParseFrame(body[i]) == Some(Delta(Chunks(Text.Split(response, ' '))[i]))
    {
      var c := Chunks(Text.Split(response, ' '))[i];
      assert body[i] == DataFrame(c);
      ParseDataFrame(c);
    }
  }

  lemma DataFramesExtend(chunks: seq<string>, i: nat)
    requires i < |chunks|
    ensures DataFrames(chunks[..i + 1]) == DataFrames(chunks[..i]) + [DataFrame(chunks[i])]
  {
  }

  /** The stream controller: the events enqueued so far, and whether it is closed. */
  class StreamController {
    var frames: seq<string>
    var closed: bool

    constructor ()
      ensures frames == [] && !closed
    {
      frames := [];
      closed := false;
    }

    /** `controller.enqueue(...)`. */
    method Enqueue(frame: string)
      requires !closed
      modifies this
      ensures frames == old(frames) + [frame] && !closed
    {
      frames := frames + [frame];
    }

    /** `controller.close()`. */
    method Close()
      requires !closed
      modifies this
      ensures closed && frames == old(frames)
    {
      closed := true;
    }
  }

  // Handlers

  /** `generateWithBitNet(messages)`: gets (and loads) the instance, assembles the prompt, generates; any failure becomes the apology. */
  method GenerateWithBitNet(entries: seq<Entry>, host: BitNet.Singleton, fs: ModelDownloader.FileSystem,
                            io: ModelDownloader.Io, startTime: int, endTime: int) returns (text: string)
    requires host.Valid()
    modifies host, host.globalBitNetInstance, fs
    ensures text == ChatReply(entries)
    ensures host.Valid() && host.globalBitNetInstance != null && host.globalBitNetInstance.isLoaded
    ensures old(host.globalBitNetInstance) == null ==> fresh(host.globalBitNetInstance)
    ensures old(host.globalBitNetInstance) != null ==> host.globalBitNetInstance == old(host.globalBitNetInstance)
    ensures old(host.globalBitNetInstance != null && host.globalBitNetInstance.isLoaded) ==>
      unchanged(old(host.globalBitNetInstance)) && unchanged(fs)
    ensures !old(host.globalBitNetInstance != null && host.globalBitNetInstance.isLoaded) ==>
      var prior := if old(host.globalBitNetInstance) == null then BitNet.InitialModelPath else old(host.globalBitNetInstance.modelPath);
      var p := ModelDownloader.ModelPathFor(io, old(fs.paths));
      && host.globalBitNetInstance.modelPath == (if p != "" then p else prior)
      && fs.paths == ModelDownloader.Resolve(io, old(fs.paths)).paths
  {
    var bitnet := host.GetBitNetInstance(fs, io);
    if HasNull(entries) {
      // `m.role` on a null element throws inside find or filter
      return Apology;
    }
    var prompt := Prompt(entries);
    var response := bitnet.Generate(prompt, fs, io, startTime, endTime);
    text := response.text;
  }

  /** The `start` callback of the stream: generate, then send the response as events and close. */
  method StartStream(entries: seq<Entry>, controller: StreamController, host: BitNet.Singleton,
                     fs: ModelDownloader.FileSystem, io: ModelDownloader.Io, startTime: int, endTime: int)
    requires host.Valid() && !controller.closed
    modifies controller, host, host.globalBitNetInstance, fs
    ensures controller.closed
    ensures controller.frames == old(controller.frames) + SseBody(ChatReply(entries))
    ensures host.Valid() && host.globalBitNetInstance != null && host.globalBitNetInstance.isLoaded
    ensures old(host.globalBitNetInstance) == null ==> fresh(host.globalBitNetInstance)
    ensures old(host.globalBitNetInstance) != null ==> host.globalBitNetInstance == old(host.globalBitNetInstance)
    ensures old(host.globalBitNetInstance != null && host.globalBitNetInstance.isLoaded) ==>
      unchanged(old(host.globalBitNetInstance)) && unchanged(fs)
    ensures !old(host.globalBitNetInstance != null && host.globalBitNetInstance.isLoaded) ==>
      var prior := if old(host.globalBitNetInstance) == null then BitNet.InitialModelPath else old(host.globalBitNetInstance.modelPath);
      var p := ModelDownloader.ModelPathFor(io, old(fs.paths));
      && host.globalBitNetInstance.modelPath == (if p != "" then p else prior)
      && fs.paths == ModelDownloader.Resolve(io, old(fs.paths)).paths
  {
    var response := GenerateWithBitNet(entries, host, fs, io, startTime, endTime);
    SendWords(response, controller);
  }

  /** The loop of the `start` callback: one event per chunk, then the terminal event, then close. */
  method SendWords(response: string, controller: StreamController)
    requires !controller.closed
    modifies controller
    ensures controller.closed
    ensures controller.frames == old(controller.frames) + SseBody(response)
  {
    var words := Text.Split(response, ' ');
    ghost var chunks := Chunks(words);
    for i := 0 to |words|
      invariant !controller.closed
      invariant controller.frames == old(controller.frames) + DataFrames(chunks[..i])
    {
      var chunk := if i == 0 then words[i] else " " + words[i];
      assert chunk == chunks[i];
      DataFramesExtend(chunks, i);
      controller.Enqueue(DataFrame(chunk));
    }
    assert chunks[..|words|] == chunks;
    controller.Enqueue(DoneFrame);
    controller.Close();
  }

  /** HTTP bodies: an error, the completion, or the probe's status. */
  datatype JsonBody =
    | ErrorBody(error: string)
    | CompletionBody(completion: Completion)
    | StatusBody(status: string, model: string, timestamp: string)

  datatype HttpResponse = JsonResponse(status: nat, body: JsonBody) | EventStream(frames: seq<string>)

  /** Whether a request reaches generation. */
  predicate Generates(req: Request) {
    req.Body? && req.messages.Entries?
  }

  /** The response `POST` gives, for the clock reading `now`. */
  function PostResponse(req: Request, now: nat): HttpResponse {
    match req
    case Unparseable => JsonResponse(500, ErrorBody(InternalError))
    case NullBody => JsonResponse(500, ErrorBody(InternalError))
    case Body(messages, stream) =>
      if !messages.Entries? then JsonResponse(400, ErrorBody(MessagesRequired))
      else if stream then EventStream(SseBody(ChatReply(messages.entries)))
      else JsonResponse(200, CompletionBody(AtomicCompletion(ChatReply(messages.entries), messages.entries, now)))
  }

  /**
   * `POST(request)`. A request without a `messages` array gets 400 and
   * nothing is created, loaded or written; a body that does not parse gets
   * 500; every other request loads the model and is answered.
   */
  method Post(req: Request, now: nat, host: BitNet.Singleton, fs: ModelDownloader.FileSystem,
              io: ModelDownloader.Io, startTime: int, endTime: int) returns (resp: HttpResponse)
    requires host.Valid()
    modifies host, host.globalBitNetInstance, fs
    ensures resp == PostResponse(req, now)
    ensures !Generates(req) ==>
      unchanged(host) && unchanged(fs) && (old(host.globalBitNetInstance) != null ==> unchanged(old(host.globalBitNetInstance)))
    ensures host.Valid()
    ensures Generates(req) ==> host.globalBitNetInstance != null && host.globalBitNetInstance.isLoaded
    ensures Generates(req) && old(host.globalBitNetInstance) == null ==> fresh(host.globalBitNetInstance)
    ensures old(host.globalBitNetInstance) != null ==> host.globalBitNetInstance == old(host.globalBitNetInstance)
    ensures old(host.globalBitNetInstance != null && host.globalBitNetInstance.isLoaded) ==>
      unchanged(old(host.globalBitNetInstance)) && unchanged(fs)
    ensures Generates(req) && !old(host.globalBitNetInstance != null && host.globalBitNetInstance.isLoaded) ==>
      var prior := if old(host.globalBitNetInstance) == null then BitNet.InitialModelPath else old(host.globalBitNetInstance.modelPath);
      var p := ModelDownloader.ModelPathFor(io, old(fs.paths));
      && host.globalBitNetInstance.modelPath == (if p != "" then p else prior)
      && fs.paths == ModelDownloader.Resolve(io, old(fs.paths)).paths
  {
    match req {
      case Unparseable =>
        resp := JsonResponse(500, ErrorBody(InternalError));
      case NullBody =>
        resp := JsonResponse(500, ErrorBody(InternalError));
      case Body(messages, stream) =>
        if !messages.Entries? {
          return JsonResponse(400, ErrorBody(MessagesRequired));
        }
        if stream {
          var controller := new StreamController();
          StartStream(messages.entries, controller, host, fs, io, startTime, endTime);
          resp := EventStream(controller.frames);
        } else {
          var response := GenerateWithBitNet(messages.entries, host, fs, io, startTime, endTime);
          resp := JsonResponse(200, CompletionBody(AtomicCompletion(response, messages.entries, now)));
        }
    }
  }

  /** The validation branches: which requests get 500, 400 or 200. */
  lemma PostStatus(req: Request, now: nat)
    ensures PostResponse(req, now).JsonResponse? ==>
      (PostResponse(req, now).body.ErrorBody? <==> PostResponse(req, now).status != 200)
    ensures !req.Body? <==> PostResponse(req, now) == JsonResponse(500, ErrorBody(InternalError))
    ensures req.Body? && !req.messages.Entries? <==> PostResponse(req, now) == JsonResponse(400, ErrorBody(MessagesRequired))
    ensures Generates(req) && req.stream <==> PostResponse(req, now).EventStream?
  {
  }

  /** Streaming and atomic answers to the same conversation carry the same text. */
  lemma StreamMatchesAtomic(entries: seq<Entry>, now: nat)
    ensures Reassemble(PostResponse(Body(Entries(entries), true), now).frames)
      == Some(PostResponse(Body(Entries(entries), false), now).body.completion.choices[0].message.content)
  {
    StreamRoundTrip(ChatReply(entries));
  }

  /** `GET()`: the liveness probe; it reads no model state, and names the same model as the completions. */
  function Get(timestamp: string): (r: HttpResponse)
    ensures r.JsonResponse? && r.status == 200 && r.body.StatusBody?
    ensures r.body.model == ModelId && r.body.timestamp == timestamp
  {
    JsonResponse(200, StatusBody("BitNet API está funcionando", ModelId, timestamp))
  }
}

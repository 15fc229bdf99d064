/**
 * The completion generator and model lifecycle of `app/lib/bitnet.ts`: the
 * configuration merge, the model object whose `isLoaded` and `modelPath`
 * change as it loads, the deterministic choice of a response, the 32-bit
 * rolling hash behind that choice, and the module-level singleton.
 *
 * Delays (`setTimeout`) and logging are left out; `Date.now()` readings are
 * inputs.
 */
module BitNet {
  import opened Wrappers
  import Text
  import ModelDownloader

  // Configuration

  datatype Config = Config(temperature: real, topP: real, topK: int, maxTokens: int, contextLength: int)

  /** `Partial<BitNetConfig>`: None is a field the caller did not give. */
  datatype PartialConfig = PartialConfig(
    temperature: Option<real>, topP: Option<real>, topK: Option<int>, maxTokens: Option<int>, contextLength: Option<int>)

  const DefaultConfig: Config := Config(0.7, 0.9, 40, 512, 2048)

  const NoOverrides: PartialConfig := PartialConfig(None, None, None, None, None)

  function Or<T>(o: Option<T>, default: T): T {
    match o
    case Some(v) => v
    case None => default
  }

  /** `{ ...defaults, ...config }`: every given field overrides its default, every other keeps it. */
  function MergeConfig(p: PartialConfig): (c: Config)
    ensures p.temperature.Some? ==> c.temperature == p.temperature.value
    ensures p.temperature.None? ==> c.temperature == 0.7
    ensures p.topP.Some? ==> c.topP == p.topP.value
    ensures p.topP.None? ==> c.topP == 0.9
    ensures p.topK.Some? ==> c.topK == p.topK.value
    ensures p.topK.None? ==> c.topK == 40
    ensures p.maxTokens.Some? ==> c.maxTokens == p.maxTokens.value
    ensures p.maxTokens.None? ==> c.maxTokens == 512
    ensures p.contextLength.Some? ==> c.contextLength == p.contextLength.value
    ensures p.contextLength.None? ==> c.contextLength == 2048
  {
    Config(
      Or(p.temperature, DefaultConfig.temperature),
      Or(p.topP, DefaultConfig.topP),
      Or(p.topK, DefaultConfig.topK),
      Or(p.maxTokens, DefaultConfig.maxTokens),
      Or(p.contextLength, DefaultConfig.contextLength))
  }

  /** The overrides `getBitNetInstance` passes. */
  const SingletonOverrides: PartialConfig := PartialConfig(Some(0.7), Some(0.9), None, Some(512), None)

  const InitialModelPath: string := "/ggml-model-i2_s.gguf"

  /** The singleton's configuration keeps topK 40 and contextLength 2048, and its overrides repeat the defaults. */
  lemma SingletonConfigIsDefault()
    ensures MergeConfig(SingletonOverrides).topK == 40
    ensures MergeConfig(SingletonOverrides).contextLength == 2048
    ensures MergeConfig(SingletonOverrides) == MergeConfig(NoOverrides) == DefaultConfig
  {
  }

  /** Supplying every field gives exactly the supplied configuration. */
  lemma FullOverrideIsIdentity(c: Config)
    ensures MergeConfig(PartialConfig(Some(c.temperature), Some(c.topP), Some(c.topK), Some(c.maxTokens), Some(c.contextLength))) == c
  {
  }

  // 32-bit arithmetic of the hash

  const Int32Modulus: int := 0x1_0000_0000
  const Int32Bound: int := 0x8000_0000

  predicate IsInt32(x: int) {
    -Int32Bound <= x < Int32Bound
  }

  /** ECMAScript ToInt32: the signed 32-bit value congruent to `x`. */
  function ToInt32(x: int): (r: int)
    ensures IsInt32(r)
    ensures (x - r) % Int32Modulus == 0
  {
    (x + Int32Bound) % Int32Modulus - Int32Bound
  }

  /** Numbers congruent modulo 2^32 have the same 32-bit value. */
  lemma ToInt32Congruent(a: int, b: int)
    requires (a - b) % Int32Modulus == 0
    ensures ToInt32(a) == ToInt32(b)
  {
    var ra, rb := ToInt32(a), ToInt32(b);
    var ka, kb, k := (a - ra) / Int32Modulus, (b - rb) / Int32Modulus, (a - b) / Int32Modulus;
    assert a - ra == Int32Modulus * ka;
    assert b - rb == Int32Modulus * kb;
    assert a - b == Int32Modulus * k;
    assert ra - rb == Int32Modulus * (k - ka + kb);
  }

  /** One step of the loop, `((hash << 5) - hash) + char` then `hash & hash`, is h <- int32(31 h + c). */
  lemma ShiftStepIsPolynomial(h: int, c: int)
    ensures ToInt32(ToInt32(h * 32) - h + c) == ToInt32(31 * h + c)
  {
    var s := ToInt32(h * 32);
    assert (h * 32 - s) % Int32Modulus == 0;
    assert (s - h + c) - (31 * h + c) == s - h * 32;
    ToInt32Congruent(s - h + c, 31 * h + c);
  }

  /** The polynomial rolling hash: h0 = 0, h(i+1) = int32(31 h(i) + code(s[i])). */
  function RollingHash(s: string): (h: int)
    ensures IsInt32(h)
  {
    if |s| == 0 then 0 else ToInt32(31 * RollingHash(s[..|s| - 1]) + s[|s| - 1] as int)
  }

  /** `Math.abs` of the rolling hash. */
  function HashOf(s: string): (r: nat)
    ensures r <= Int32Bound
  {
    var h := RollingHash(s);
    if h < 0 then -h else h
  }

  // Response selection

  /** The model name as the self-description and `getModelInfo` both give it. */
  const ModelName: string := "BitNet 1.58 2B"

  // The long replies below are written as a short head followed by the rest,
  // so that their first characters (which tell the reply kinds apart) are
  // within easy reach of the verifier; the text is the source's, unchanged.

  const SelfDescription: string :=
    "¡Hola! Soy " + ModelName
    + " parameters, un modelo ultra-eficiente. Uso solo 400MB de RAM y funciono perfectamente en Vercel. ¿En qué puedo ayudarte?"

  const ProgrammingReply: string :=
    "Como BitNet, "
    + "puedo ayudarte con programación de manera eficiente. ¿Qué tipo de código necesitas? Puedo ayudarte con JavaScript, Python, React, Next.js y más."

  /** The closing parts of the three general responses. */
  const GenericTail0: string :=
    ". Como BitNet 1.58 2B, puedo procesar esta información eficientemente usando mínimos recursos computacionales."
  const GenericTail1: string :=
    " y darte una respuesta útil desde Vercel serverless."
  const GenericTail2: string :=
    ". Como BitNet, combino eficiencia extrema con buenas capacidades usando solo 400MB de memoria."

  /** The prompt between double quotes, as the templates interpolate it. */
  function Quoted(prompt: string): string {
    "\"" + prompt + "\""
  }

  /** The three general responses, each quoting the prompt as given. */
  function GenericReplies(prompt: string): seq<string> {
    [ "Entiendo tu consulta: " + Quoted(prompt) + GenericTail0,
      "Interesante pregunta. " + "Siendo BitNet ultra-eficiente, puedo analizar: " + Quoted(prompt) + GenericTail1,
      "Gracias por preguntar: " + Quoted(prompt) + GenericTail2 ]
  }

  /** The first trigger: the model's name or "que eres". */
  predicate MentionsSelf(prompt: string) {
    Text.Contains(Text.Lower(prompt), "bitnet") || Text.Contains(Text.Lower(prompt), "que eres")
  }

  /** The second trigger: "código" or "programar". */
  predicate MentionsCode(prompt: string) {
    Text.Contains(Text.Lower(prompt), "código") || Text.Contains(Text.Lower(prompt), "programar")
  }

  /** `hash % responses.length`. */
  function TemplateIndex(prompt: string): (k: nat)
    ensures k < 3
  {
    HashOf(prompt) % 3
  }

  /** The text `generateIntelligentResponse` settles on. */
  function IntelligentResponse(prompt: string): string {
    if MentionsSelf(prompt) then SelfDescription
    else if MentionsCode(prompt) then ProgrammingReply
    else GenericReplies(prompt)[TemplateIndex(prompt)]
  }

  /** The three kinds of response can be told apart by their first character. */
  lemma ResponseKindsDiffer(prompt: string)
    ensures SelfDescription[0] == '¡' && ProgrammingReply[0] == 'C'
    ensures GenericReplies(prompt)[0][0] == 'E' && GenericReplies(prompt)[1][0] == 'I' && GenericReplies(prompt)[2][0] == 'G'
  {
  }

  /** The self-description is returned exactly when a self-reference trigger matches, whatever else the prompt mentions. */
  lemma SelfReferenceWins(prompt: string)
    ensures IntelligentResponse(prompt) == SelfDescription <==> MentionsSelf(prompt)
  {
    ResponseKindsDiffer(prompt);
    if !MentionsSelf(prompt) && !MentionsCode(prompt) {
      var r := IntelligentResponse(prompt);
      assert r[0] != SelfDescription[0];
    }
  }

  /** The programming reply is returned exactly when no self-reference trigger matches and a code trigger does. */
  lemma ProgrammingReplyExactly(prompt: string)
    ensures IntelligentResponse(prompt) == ProgrammingReply <==> !MentionsSelf(prompt) && MentionsCode(prompt)
  {
    ResponseKindsDiffer(prompt);
    if !MentionsSelf(prompt) && !MentionsCode(prompt) {
      var r := IntelligentResponse(prompt);
      assert r[0] != ProgrammingReply[0];
    }
  }

  /** A self-reference trigger written in any case, for example "BitNet" or "QUE ERES", selects the self-description. */
  lemma SelfTriggerAnyCase(prompt: string, t: string)
    requires Text.Contains(prompt, t)
    requires Text.Lower(t) == "bitnet" || Text.Lower(t) == "que eres"
    ensures IntelligentResponse(prompt) == SelfDescription
  {
    Text.LowerContains(prompt, t);
  }

  /** The model's name as the product writes it selects the self-description. */
  lemma ProductNameSelfDescribes(prompt: string)
    requires Text.Contains(prompt, "BitNet")
    ensures IntelligentResponse(prompt) == SelfDescription
  {
    assert Text.Lower("BitNet") == "bitnet";
    SelfTriggerAnyCase(prompt, "BitNet");
  }

  /** A code trigger written in any case, for example "Código" or "PROGRAMAR", selects the programming reply when no self reference does. */
  lemma CodeTriggerAnyCase(prompt: string, t: string)
    requires Text.Contains(prompt, t)
    requires Text.Lower(t) == "código" || Text.Lower(t) == "programar"
    requires !MentionsSelf(prompt)
    ensures IntelligentResponse(prompt) == ProgrammingReply
  {
    Text.LowerContains(prompt, t);
  }

  /** Without triggers the response is the template at `hash % 3`, which quotes the prompt verbatim. */
  lemma GenericReplyQuotesPrompt(prompt: string)
    requires !MentionsSelf(prompt) && !MentionsCode(prompt)
    ensures IntelligentResponse(prompt) == GenericReplies(prompt)[HashOf(prompt) % 3]
    ensures Text.Contains(IntelligentResponse(prompt), Quoted(prompt))
  {
    var q := Quoted(prompt);
    Text.ContainsSelf(q);
    match TemplateIndex(prompt)
    case 0 => Text.ContainsInfix("Entiendo tu consulta: ", q, GenericTail0, q);
    case 1 => Text.ContainsInfix("Interesante pregunta. " + "Siendo BitNet ultra-eficiente, puedo analizar: ", q, GenericTail1, q);
    case 2 => Text.ContainsInfix("Gracias por preguntar: ", q, GenericTail2, q);
  }

  /** What `generate` resolves to; `timeMs` is the difference of two clock readings. */
  datatype BitNetResponse = BitNetResponse(text: string, tokensGenerated: nat, timeMs: int)

  /** `getModelInfo()` of the model object. */
  datatype ModelSummary = ModelSummary(
    name: string, size: string, parameters: string, quantization: string, efficiency: string, platform: string)

  const Summary: ModelSummary :=
    ModelSummary(ModelName, "~400MB", "2B", "1.58-bit", "Ultra-High", "Vercel Serverless Ready")

  /** A model object: the configuration fixed at construction, and the load state. */
  class BitNetModel {
    const config: Config
    var isLoaded: bool
    var modelPath: string

    /** `new BitNetModel(modelPath, config)`: not loaded, configuration merged over the defaults. */
    constructor (modelPath: string, overrides: PartialConfig)
      ensures this.modelPath == modelPath && config == MergeConfig(overrides) && !isLoaded
    {
      this.modelPath := modelPath;
      config := MergeConfig(overrides);
      isLoaded := false;
    }

    /**
     * `simulateModelLoading()`: asks for the artifact path and keeps it only
     * when it is not empty. It never fails: a missing artifact means
     * simulation mode.
     */
    method SimulateModelLoading(fs: ModelDownloader.FileSystem, io: ModelDownloader.Io)
      modifies this, fs
      ensures isLoaded == old(isLoaded)
      ensures var p := ModelDownloader.ModelPathFor(io, old(fs.paths));
        modelPath == if p != "" then p else old(modelPath)
      ensures fs.paths == ModelDownloader.Resolve(io, old(fs.paths)).paths
    {
      var actualModelPath := ModelDownloader.GetModelPath(fs, io);
      if actualModelPath != "" {
        modelPath := actualModelPath;
      }
    }

    /** `load()`: always ends loaded, the path replaced only by a resolved one. */
    method Load(fs: ModelDownloader.FileSystem, io: ModelDownloader.Io)
      modifies this, fs
      ensures isLoaded
      ensures var p := ModelDownloader.ModelPathFor(io, old(fs.paths));
        modelPath == if p != "" then p else old(modelPath)
      ensures fs.paths == ModelDownloader.Resolve(io, old(fs.paths)).paths
    {
      SimulateModelLoading(fs, io);
      isLoaded := true;
    }

    /** `simpleHash(str)`, step by step as the source computes it. */
    method SimpleHash(str: string) returns (r: nat)
      ensures r == HashOf(str)
      ensures r <= Int32Bound
    {
      var hash := 0;
      for i := 0 to |str|
        invariant hash == RollingHash(str[..i])
      {
        var ch := str[i] as int;
        ShiftStepIsPolynomial(hash, ch);
        assert str[..i + 1][..i] == str[..i];
        hash := ToInt32(hash * 32) - hash + ch;
        hash := ToInt32(hash);
      }
      assert str[..|str|] == str;
      r := if hash < 0 then -hash else hash;
    }

    /** `generateIntelligentResponse(prompt)`, without its delay. */
    method GenerateIntelligentResponse(prompt: string) returns (response: string)
      ensures response == IntelligentResponse(prompt)
    {
      var lowerPrompt := Text.Lower(prompt);
      if Text.Contains(lowerPrompt, "bitnet") || Text.Contains(lowerPrompt, "que eres") {
        return SelfDescription;
      }
      if Text.Contains(lowerPrompt, "código") || Text.Contains(lowerPrompt, "programar") {
        return ProgrammingReply;
      }
      var responses := GenericReplies(prompt);
      var hash := SimpleHash(prompt);
      response := responses[hash % |responses|];
    }

    /**
     * `generate(prompt)`: loads first when not loaded, then returns the
     * selected text with its token estimate, ceil(length / 4).
     */
    method Generate(prompt: string, fs: ModelDownloader.FileSystem, io: ModelDownloader.Io, startTime: int, endTime: int)
      returns (res: BitNetResponse)
      modifies this, fs
      ensures res.text == IntelligentResponse(prompt)
      ensures 4 * (res.tokensGenerated - 1) < |res.text| <= 4 * res.tokensGenerated
      ensures res.timeMs == endTime - startTime
      ensures isLoaded
      ensures old(isLoaded) ==> unchanged(this) && unchanged(fs)
      ensures !old(isLoaded) ==>
        var p := ModelDownloader.ModelPathFor(io, old(fs.paths));
        && modelPath == (if p != "" then p else old(modelPath))
        && fs.paths == ModelDownloader.Resolve(io, old(fs.paths)).paths
    {
      if !isLoaded {
        Load(fs, io);
      }
      var response := GenerateIntelligentResponse(prompt);
      res := BitNetResponse(response, (|response| + 3) / 4, endTime - startTime);
    }

    /** `isModelLoaded()`. */
    function IsModelLoaded(): (b: bool)
      reads this
      ensures b <==> isLoaded
    {
      isLoaded
    }

    /** `getModelInfo()`: static metadata, whose name is the one the self-description announces. */
    function GetModelInfo(): (info: ModelSummary)
      ensures Text.Contains(SelfDescription, info.name)
      ensures info.parameters == "2B" && info.quantization == "1.58-bit"
    {
      Text.ContainsSelf(ModelName);
      Text.ContainsInfix("¡Hola! Soy ", ModelName,
        " parameters, un modelo ultra-eficiente. Uso solo 400MB de RAM y funciono perfectamente en Vercel. ¿En qué puedo ayudarte?",
        ModelName);
      Summary
    }
  }

  /** The module-level state of `bitnet.ts`: the one shared instance, once created. */
  class Singleton {
    var globalBitNetInstance: BitNetModel?

    /** Every instance the singleton holds was built with the singleton's configuration. */
    ghost predicate Valid()
      reads this
    {
      globalBitNetInstance != null ==> globalBitNetInstance.config == MergeConfig(SingletonOverrides)
    }

    /** Module initialisation: no instance yet. */
    constructor ()
      ensures Valid() && globalBitNetInstance == null
    {
      globalBitNetInstance := null;
    }

    /**
     * `getBitNetInstance()`: creates the instance on the first call only,
     * returns the same object on every later call, and loads it when it is
     * not loaded; a loaded instance and the file system are left alone.
     */
    method GetBitNetInstance(fs: ModelDownloader.FileSystem, io: ModelDownloader.Io) returns (m: BitNetModel)
      requires Valid()
      modifies this, globalBitNetInstance, fs
      ensures Valid() && globalBitNetInstance == m && m.isLoaded
      ensures m.config.topK == 40 && m.config.contextLength == 2048
      ensures old(globalBitNetInstance) == null ==> fresh(m)
      ensures old(globalBitNetInstance) != null ==> m == old(globalBitNetInstance)
      ensures old(globalBitNetInstance != null && globalBitNetInstance.isLoaded) ==>
        unchanged(old(globalBitNetInstance)) && unchanged(fs)
      ensures !old(globalBitNetInstance != null && globalBitNetInstance.isLoaded) ==>
        var prior := if old(globalBitNetInstance) == null then InitialModelPath else old(globalBitNetInstance.modelPath);
        var p := ModelDownloader.ModelPathFor(io, old(fs.paths));
        && m.modelPath == (if p != "" then p else prior)
        && fs.paths == ModelDownloader.Resolve(io, old(fs.paths)).paths
    {
      if globalBitNetInstance == null {
        globalBitNetInstance := new BitNetModel(InitialModelPath, SingletonOverrides);
      }
      m := globalBitNetInstance;
      if !m.IsModelLoaded() {
        m.Load(fs, io);
      }
    }
  }
}

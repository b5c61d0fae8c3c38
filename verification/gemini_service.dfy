/** The engine facade: routing a mode to a model, building the cloud
    request, turning a chunk stream into cumulative yields, the local
    completion endpoint's result shape and the code-repair round trip.
    The generative API and the local server are not modelled: what they
    return is an input (`CloudReply`, the local reply, `RepairReply`). */
module GeminiService {
  import opened Basics
  import opened Types
  import FencedCode

  // ---------------------------------------------------------------------
  // Routing

  /** The model identifier each mode is routed to. */
  function ModelRouter(m: EngineMode): (id: string)
    ensures |id| > 0
  {
    match m
    case Flash => "gemini-3-flash-preview"
    case Ultra => "gemini-3-pro-preview"
    case LocalX1 => "sovereign-local-x1"
  }

  /** The router is total and sends the three modes to three different models. */
  lemma RouterDistinct(a: EngineMode, b: EngineMode)
    ensures ModelRouter(a) == ModelRouter(b) <==> a == b
  {
  }

  // ---------------------------------------------------------------------
  // Request construction

  datatype InlineData = InlineData(data: string, mimeType: string)

  datatype ContentPart = InlinePart(inlineData: InlineData) | TextContent(text: string)

  datatype ThinkingConfig = ThinkingConfig(thinkingBudget: nat)

  datatype Tool = GoogleSearch

  /** The system framing is fixed text; for chat requests only its trailing
      context line varies, the repair request uses its own fixed framing. */
  datatype SystemInstruction = PersonaFraming(context: string) | RepairFraming

  datatype GenerateConfig = GenerateConfig(
    systemInstruction: SystemInstruction,
    temperature: real,
    thinkingConfig: Option<ThinkingConfig>,
    tools: Option<seq<Tool>>)

  datatype CloudRequest = CloudRequest(model: string, contents: seq<ContentPart>, config: GenerateConfig)

  /** Body of the POST to the local completion server: the model name and a
      single user message. */
  datatype LocalRequest = LocalRequest(model: string, userContent: string)

  /** The optional third argument of the generator. */
  datatype Options = Options(imageBase64: Option<string>, search: Option<bool>, context: Option<string>)

  const DefaultContext: string := "محادثة عامة"
  const ThinkingBudget: nat := 32768

  /** `options?.context || 'محادثة عامة'`. */
  function ContextLine(opts: Options): (c: string)
    ensures Truthy(opts.context) ==> c == opts.context.value
    ensures !Truthy(opts.context) ==> c == DefaultContext
  {
    if Truthy(opts.context) then opts.context.value else DefaultContext
  }

  /** The request configuration the mode and the search flag select. */
  function BuildConfig(mode: EngineMode, opts: Options): (c: GenerateConfig)
    ensures c.systemInstruction == PersonaFraming(ContextLine(opts))
    ensures c.temperature == 0.7 <==> mode == Ultra
    ensures mode != Ultra ==> c.temperature == 0.3
    ensures c.thinkingConfig.Some? <==> mode == Ultra
    ensures c.thinkingConfig.Some? ==> c.thinkingConfig.value.thinkingBudget == ThinkingBudget
    ensures c.tools.Some? <==> opts.search == Some(true)
    ensures c.tools.Some? ==> c.tools.value == [GoogleSearch]
  {
    GenerateConfig(
      PersonaFraming(ContextLine(opts)),
      if mode == Ultra then 0.7 else 0.3,
      if mode == Ultra then Some(ThinkingConfig(ThinkingBudget)) else None,
      if opts.search == Some(true) then Some([GoogleSearch]) else None)
  }

  /** Index of the first `c` in `s` at or after `from`. */
  function IndexOf(s: string, c: char, from: nat): (r: Option<nat>)
    ensures r.Some? ==> from <= r.value < |s| && s[r.value] == c
    ensures r.Some? ==> forall k | from <= k < r.value :: s[k] != c
    ensures r.None? ==> forall k | from <= k < |s| :: s[k] != c
    decreases |s| - from
  {
    if from >= |s| then None
    else if s[from] == c then Some(from)
    else IndexOf(s, c, from + 1)
  }

  /** `d` is the comma-free text right after the first comma of `s`,
      ending at the next comma or the end of `s`: `s.split(',')[1]`. */
  ghost predicate IsField(d: string, s: string) {
    ',' !in d && exists i :: FieldAt(d, s, i)
  }

  /** `d` starts right after the comma at `i`, the first comma of `s`, and
      runs to the next comma or the end. */
  predicate FieldAt(d: string, s: string, i: int) {
    && 0 <= i < |s|
    && s[i] == ','
    && ',' !in s[..i]
    && i + 1 + |d| <= |s|
    && s[i + 1..i + 1 + |d|] == d
    && (i + 1 + |d| == |s| || s[i + 1 + |d|] == ',')
  }

  /** `s.split(',')[1]`: the text between the first comma and the next one
      (or the end), absent when `s` has no comma. */
  function SecondField(s: string): (r: Option<string>)
    ensures r.None? <==> ',' !in s
    ensures r.Some? ==> IsField(r.value, s)
  {
    match IndexOf(s, ',', 0)
    case None => None
    case Some(i) =>
      assert ',' !in s[..i];
      match IndexOf(s, ',', i + 1)
      case None =>
        assert FieldAt(s[i + 1..], s, i);
        Some(s[i + 1..])
      case Some(j) =>
        assert FieldAt(s[i + 1..j], s, i);
        Some(s[i + 1..j])
  }

  /** The second field is determined: whatever text sits between the first
      comma and the next one (or the end) is what `split` returns. */
  lemma SecondFieldUnique(d: string, s: string)
    requires IsField(d, s)
    ensures SecondField(s) == Some(d)
  {
    var i :| FieldAt(d, s, i);
    forall k | 0 <= k < i
      ensures s[k] != ','
    {
      assert s[k] == s[..i][k];
    }
    IndexOfFinds(s, ',', 0, i);
    var e := i + 1 + |d|;
    forall k | i + 1 <= k < e
      ensures s[k] != ','
    {
      assert s[k] == d[k - (i + 1)];
    }
    IndexOfFinds(s, ',', i + 1, e);
    if e < |s| {
      assert SecondField(s) == Some(s[i + 1..e]);
    } else {
      assert SecondField(s) == Some(s[i + 1..]);
    }
  }

  /** The first `c` at or after `from` is where `IndexOf` stops. */
  lemma IndexOfFinds(s: string, c: char, from: nat, k: nat)
    requires from <= k <= |s|
    requires forall j | from <= j < k :: s[j] != c
    requires k < |s| ==> s[k] == c
    ensures k < |s| ==> IndexOf(s, c, from) == Some(k)
    ensures k == |s| ==> IndexOf(s, c, from).None?
  {
  }

  /** `d` is a non-empty second field of `s`. */
  ghost predicate IsSecondField(d: string, s: string) {
    |d| > 0 && IsField(d, s)
  }

  /** The inline image payload: the second comma-separated field of the data
      URI, or the whole string when that field is missing or empty. */
  function InlinePayload(image: string): (d: string)
    ensures (exists e :: IsSecondField(e, image)) ==> IsSecondField(d, image)
    ensures !(exists e :: IsSecondField(e, image)) ==> d == image
  {
    var f := SecondField(image);
    if f.Some? && f.value != "" then
      assert IsSecondField(f.value, image);
      f.value
    else
      assert forall e | IsSecondField(e, image) :: false by {
        forall e | IsSecondField(e, image) ensures false {
          SecondFieldUnique(e, image);
        }
      }
      image
  }

  /** A data URI's payload is what the request sends: for a comma-free
      header and a non-empty comma-free payload, the inline data is exactly
      the payload. */
  lemma DataUriPayload(header: string, payload: string)
    requires ',' !in header && ',' !in payload && payload != ""
    ensures InlinePayload(header + "," + payload) == payload
  {
    var s := header + "," + payload;
    var i := |header|;
    assert s[i] == ',' && s[..i] == header && s[i + 1..] == payload;
    assert FieldAt(payload, s, i);
    SecondFieldUnique(payload, s);
    SecondFieldUnique(InlinePayload(s), s);
  }

  /** The `contents` of the cloud request: the inline image part first and
      the prompt second when an image is given, otherwise the prompt alone. */
  function Contents(prompt: string, opts: Options): (cs: seq<ContentPart>)
    ensures |cs| == (if Truthy(opts.imageBase64) then 2 else 1)
    ensures cs[|cs| - 1] == TextContent(prompt)
    ensures cs[0].InlinePart? <==> Truthy(opts.imageBase64)
    ensures cs[0].InlinePart? ==>
      cs[0].inlineData == InlineData(InlinePayload(opts.imageBase64.value), "image/jpeg")
  {
    if Truthy(opts.imageBase64) then
      [InlinePart(InlineData(InlinePayload(opts.imageBase64.value), "image/jpeg")), TextContent(prompt)]
    else [TextContent(prompt)]
  }

  /** An attached JPEG data URI reaches the request as its base64 payload
      alone, in front of the prompt. */
  lemma ContentsSendPayload(prompt: string, opts: Options, header: string, payload: string)
    requires opts.imageBase64 == Some(header + "," + payload)
    requires ',' !in header && ',' !in payload && payload != ""
    ensures Contents(prompt, opts) == [InlinePart(InlineData(payload, "image/jpeg")), TextContent(prompt)]
  {
    DataUriPayload(header, payload);
  }

  // ---------------------------------------------------------------------
  // Streaming

  datatype Web = Web(title: Option<string>, uri: string)
  datatype GroundingChunk = GroundingChunk(web: Option<Web>)

  /** One chunk of the cloud stream: its text (possibly undefined) and the
      grounding chunks of its first candidate, if any. */
  datatype Chunk = Chunk(text: Option<string>, groundingChunks: Option<seq<GroundingChunk>>)

  datatype Meta = Meta(model: string, mode: EngineMode, latencyMs: int)

  datatype StreamItem = StreamItem(
    text: string,
    isFinished: bool,
    sources: Option<seq<GroundingSource>>,
    meta: Option<Meta>)

  /** What the cloud stream delivers: the chunks that arrived, and whether
      the stream then threw instead of ending. */
  datatype CloudReply = CloudReply(chunks: seq<Chunk>, failed: bool)

  datatype Call = CloudCall(cloud: CloudRequest) | LocalCall(local: LocalRequest)

  /** Everything one run of the generator does: the backend call it makes,
      the items it yields and whether it ends by rethrowing. */
  datatype Generation = Generation(call: Call, items: seq<StreamItem>, threw: bool)

  const DefaultSourceTitle: string := "مصدر سيادي"

  /** `fullText += chunk.text`: an undefined text is appended as "undefined". */
  function ChunkText(c: Chunk): string {
    match c.text
    case Some(t) => t
    case None => "undefined"
  }

  /** Concatenation of the chunk texts, in order. */
  function Accumulated(cs: seq<Chunk>): string {
    if |cs| == 0 then "" else ChunkText(cs[0]) + Accumulated(cs[1..])
  }

  lemma {:induction false} AccumulatedSnoc(cs: seq<Chunk>, c: Chunk)
    ensures Accumulated(cs + [c]) == Accumulated(cs) + ChunkText(c)
    decreases |cs|
  {
    if |cs| > 0 {
      TailAppend(cs, [c]);
      AccumulatedSnoc(cs[1..], c);
    } else {
      assert cs + [c] == [c];
    }
  }

  function SourceOf(w: Web): (g: GroundingSource)
    ensures g.uri == w.uri
    ensures Truthy(w.title) ==> g.title == w.title.value
    ensures !Truthy(w.title) ==> g.title == DefaultSourceTitle
  {
    GroundingSource(if Truthy(w.title) then w.title.value else DefaultSourceTitle, w.uri)
  }

  /** The sources of the grounding chunks that carry a web entry, in order. */
  function WebSources(gcs: seq<GroundingChunk>): (r: seq<GroundingSource>)
    ensures |r| <= |gcs|
    ensures |r| == 0 <==> forall i | 0 <= i < |gcs| :: gcs[i].web.None?
    ensures forall i | 0 <= i < |r| :: r[i].title != ""
  {
    if |gcs| == 0 then []
    else (if gcs[0].web.Some? then [SourceOf(gcs[0].web.value)] else []) + WebSources(gcs[1..])
  }

  /** One grounding chunk gives its web entry's source, or nothing. */
  lemma WebSourcesSingle(g: GroundingChunk)
    ensures g.web.Some? ==> WebSources([g]) == [SourceOf(g.web.value)]
    ensures g.web.None? ==> WebSources([g]) == []
  {
    assert [g][1..] == [];
  }

  /** Every source is the source of a grounding chunk's web entry, with the
      default title where that entry's title is empty or missing. */
  lemma {:induction false} WebSourcesOrigin(gcs: seq<GroundingChunk>, k: nat)
    requires k < |WebSources(gcs)|
    ensures exists j | 0 <= j < |gcs| :: gcs[j].web.Some? && WebSources(gcs)[k] == SourceOf(gcs[j].web.value)
    decreases |gcs|
  {
    var h := if gcs[0].web.Some? then [SourceOf(gcs[0].web.value)] else [];
    var t := WebSources(gcs[1..]);
    assert WebSources(gcs) == h + t;
    if k < |h| {
      assert gcs[0].web.Some? && WebSources(gcs)[k] == SourceOf(gcs[0].web.value);
    } else {
      WebSourcesOrigin(gcs[1..], k - |h|);
      var j :| 0 <= j < |gcs[1..]| && gcs[1..][j].web.Some? && t[k - |h|] == SourceOf(gcs[1..][j].web.value);
      assert gcs[j + 1] == gcs[1..][j];
    }
  }

  /** Source extraction keeps the order of the grounding chunks. */
  lemma {:induction false} WebSourcesAppend(a: seq<GroundingChunk>, b: seq<GroundingChunk>)
    ensures WebSources(a + b) == WebSources(a) + WebSources(b)
    decreases |a|
  {
    if |a| > 0 {
      var h := if a[0].web.Some? then [SourceOf(a[0].web.value)] else [];
      TailAppend(a, b);
      WebSourcesAppend(a[1..], b);
      assert WebSources(a + b) == h + WebSources(a[1..] + b);
      AppendAssoc(h, WebSources(a[1..]), WebSources(b));
    } else {
      assert a + b == b;
    }
  }

  /** The per-chunk `sources` field: undefined when no web source was found. */
  function ChunkSources(c: Chunk): (r: Option<seq<GroundingSource>>)
    ensures r.Some? ==> |r.value| > 0
    ensures r.None? <==> (c.groundingChunks.None? ||
      forall i | 0 <= i < |c.groundingChunks.value| :: c.groundingChunks.value[i].web.None?)
    ensures r.Some? ==> r.value == WebSources(c.groundingChunks.value)
  {
    var s := if c.groundingChunks.Some? then WebSources(c.groundingChunks.value) else [];
    if |s| > 0 then Some(s) else None
  }

  /** The text accumulated by the first `k + 1` chunks: the first chunk's
      text, then that of the next `k`. */
  lemma AccumulatedPrefix(cs: seq<Chunk>, k: nat)
    requires k < |cs|
    ensures Accumulated(cs[..k + 1]) == ChunkText(cs[0]) + Accumulated(cs[1..][..k])
  {
    TakeTail(cs, k);
  }

  /** The property of each yield, for the loop entered with `acc` accumulated. */
  ghost predicate YieldOk(item: StreamItem, acc: string, cs: seq<Chunk>, k: nat, model: string, mode: EngineMode)
    requires k < |cs|
  {
    && item.text == acc + Accumulated(cs[..k + 1])
    && !item.isFinished
    && item.sources == ChunkSources(cs[k])
    && item.meta == Some(Meta(model, mode, 0))
  }

  /** One turn of the loop: the head yield followed by the yields of the
      rest of the chunks are the yields of all of them. */
  lemma ProgressCons(acc: string, cs: seq<Chunk>, model: string, mode: EngineMode,
                     head: StreamItem, rest: seq<StreamItem>)
    requires |cs| > 0 && |rest| == |cs| - 1
    requires head == StreamItem(acc + ChunkText(cs[0]), false, ChunkSources(cs[0]), Some(Meta(model, mode, 0)))
    requires forall k | 0 <= k < |cs| - 1 :: YieldOk(rest[k], acc + ChunkText(cs[0]), cs[1..], k, model, mode)
    ensures forall k | 0 <= k < |cs| :: YieldOk(([head] + rest)[k], acc, cs, k, model, mode)
  {
    var items := [head] + rest;
    forall k | 0 <= k < |cs|
      ensures YieldOk(items[k], acc, cs, k, model, mode)
    {
      AccumulatedPrefix(cs, k);
      AppendAssoc(acc, ChunkText(cs[0]), Accumulated(cs[1..][..k]));
      if k > 0 {
        assert items[k] == rest[k - 1];
        assert YieldOk(rest[k - 1], acc + ChunkText(cs[0]), cs[1..], k - 1, model, mode);
      }
    }
  }

  /** The yields of the chunk loop, `acc` being the text accumulated so far. */
  function Progress(acc: string, cs: seq<Chunk>, model: string, mode: EngineMode): (items: seq<StreamItem>)
    ensures |items| == |cs|
    ensures forall k | 0 <= k < |cs| :: YieldOk(items[k], acc, cs, k, model, mode)
    decreases |cs|
  {
    if |cs| == 0 then []
    else
      var text := acc + ChunkText(cs[0]);
      var head := StreamItem(text, false, ChunkSources(cs[0]), Some(Meta(model, mode, 0)));
      var rest := Progress(text, cs[1..], model, mode);
      ProgressCons(acc, cs, model, mode, head, rest);
      [head] + rest
  }

  const LocalModelId: string := "sovereign-local-x1"
  const OfflineText: string := "النواة المحلية (Local X1) غير متصلة."

  datatype EngineResult = EngineResult(text: string, meta: Meta)

  /** `handleLocalX1Request`: `reply` is the content of the first choice the
      local server returned, or None when the fetch or the JSON access threw;
      `start` and `finish` are the clock readings around the call. */
  function LocalX1Request(reply: Option<string>, start: int, finish: int): (r: EngineResult)
    ensures r.meta.mode == LocalX1 && r.meta.latencyMs == finish - start
    ensures reply.Some? ==> r.text == reply.value && r.meta.model == "Local-X1-Core"
    ensures reply.None? ==> r.text == OfflineText && r.meta.model == "Local-Core-Offline"
  {
    match reply
    case Some(content) => EngineResult(content, Meta("Local-X1-Core", LocalX1, finish - start))
    case None => EngineResult(OfflineText, Meta("Local-Core-Offline", LocalX1, finish - start))
  }

  /** `muntasirGenerateContentStream` run to the end against the given
      backend replies. */
  function Generate(prompt: string, mode: EngineMode, opts: Options,
                    local: Option<string>, cloud: CloudReply, start: int, finish: int): (g: Generation)
    ensures mode == LocalX1 <==> g.call.LocalCall?
    ensures mode == LocalX1 ==>
      && g.call.local == LocalRequest(LocalModelId, prompt)
      && |g.items| == 1 && g.items[0].isFinished && !g.threw
      && g.items[0].sources.None?
      && g.items[0].meta == Some(LocalX1Request(local, start, finish).meta)
      && g.items[0].text == LocalX1Request(local, start, finish).text
    ensures mode != LocalX1 ==>
      && g.call.cloud.model == ModelRouter(mode)
      && g.call.cloud.contents == Contents(prompt, opts)
      && g.call.cloud.config == BuildConfig(mode, opts)
      && g.threw == cloud.failed
      && |g.items| == |cloud.chunks| + (if cloud.failed then 0 else 1)
      && (forall k | 0 <= k < |cloud.chunks| ::
            && g.items[k].text == Accumulated(cloud.chunks[..k + 1])
            && !g.items[k].isFinished
            && g.items[k].sources == ChunkSources(cloud.chunks[k])
            && g.items[k].meta == Some(Meta(ModelRouter(mode), mode, 0)))
      && (!cloud.failed ==>
            g.items[|g.items| - 1] == StreamItem(Accumulated(cloud.chunks), true, None, None))
  {
    if mode == LocalX1 then
      var res := LocalX1Request(local, start, finish);
      Generation(LocalCall(LocalRequest(LocalModelId, prompt)),
                 [StreamItem(res.text, true, None, Some(res.meta))], false)
    else
      var model := ModelRouter(mode);
      var request := CloudRequest(model, Contents(prompt, opts), BuildConfig(mode, opts));
      var progress := Progress("", cloud.chunks, model, mode);
      forall k | 0 <= k < |cloud.chunks| ensures progress[k].text == Accumulated(cloud.chunks[..k + 1]) {
        assert YieldOk(progress[k], "", cloud.chunks, k, model, mode);
        assert "" + Accumulated(cloud.chunks[..k + 1]) == Accumulated(cloud.chunks[..k + 1]);
      }
      if cloud.failed then Generation(CloudCall(request), progress, true)
      else Generation(CloudCall(request), progress + [StreamItem(Accumulated(cloud.chunks), true, None, None)], false)
  }

  /** The local mode never looks at the cloud: its run is the same whatever
      the cloud would have replied. */
  lemma LocalIgnoresCloud(prompt: string, opts: Options, local: Option<string>,
                          c1: CloudReply, c2: CloudReply, start: int, finish: int)
    ensures Generate(prompt, LocalX1, opts, local, c1, start, finish)
         == Generate(prompt, LocalX1, opts, local, c2, start, finish)
  {
  }

  /** Each prefix of the chunk list accumulates a prefix of the next one's text. */
  lemma AccumulatedGrows(cs: seq<Chunk>, k: nat)
    requires k < |cs|
    ensures Accumulated(cs[..k]) <= Accumulated(cs[..k + 1])
  {
    AccumulatedSnoc(cs[..k], cs[k]);
    assert cs[..k] + [cs[k]] == cs[..k + 1];
  }

  /** Each yield's text extends the previous one: the final yield included,
      the stream never shows less text than before. */
  lemma YieldsGrow(g: Generation, prompt: string, mode: EngineMode, opts: Options,
                   local: Option<string>, cloud: CloudReply, start: int, finish: int, k: nat)
    requires g == Generate(prompt, mode, opts, local, cloud, start, finish)
    requires mode != LocalX1 && k + 1 < |g.items|
    ensures g.items[k].text <= g.items[k + 1].text
  {
    var cs := cloud.chunks;
    if k + 1 < |cs| {
      AccumulatedGrows(cs, k + 1);
    } else {
      TakeAll(cs);
    }
  }

  // ---------------------------------------------------------------------
  // Code repair

  const RepairPreamble: string := "أصلح هذا الكود البرمجي فوراً وطوره هندسياً للسيد خالد المنتصر:\n"
  const ErrorLabel: string := "الخطأ: "

  /** The single-shot repair request: the code, then the error when one is given. */
  function RepairRequest(code: string, error: Option<string>): (r: CloudRequest)
    ensures r.model == ModelRouter(Flash)
    ensures r.config == GenerateConfig(RepairFraming, 0.1, None, None)
    ensures |r.contents| == 1 && r.contents[0].TextContent?
    ensures var p := r.contents[0].text;
      |RepairPreamble| + |code| < |p| && p[|RepairPreamble|..|RepairPreamble| + |code|] == code
    ensures Truthy(error) <==> |r.contents[0].text| > |RepairPreamble| + |code| + 1
  {
    var tail := if Truthy(error) then ErrorLabel + error.value else "";
    var p := RepairPreamble + code + "\n" + tail;
    assert p[|RepairPreamble|..|RepairPreamble| + |code|] == code;
    CloudRequest("gemini-3-flash-preview", [TextContent(p)], GenerateConfig(RepairFraming, 0.1, None, None))
  }

  /** What the repair call produced: it threw, or returned a response whose
      text may be undefined. */
  datatype RepairReply = RepairThrew | RepairResponse(text: Option<string>)

  /** `muntasirRepairCode`: the first block's body, else the reply text when
      non-empty, else the original code; the original code when the call throws. */
  function RepairCode(code: string, reply: RepairReply): (r: string)
    ensures reply.RepairThrew? ==> r == code
    ensures reply.RepairResponse? ==>
      var t := reply.text.GetOr("");
      match FencedCode.ExtractFirst(t)
      case Some(body) => r == body
      case None => r == (if t != "" then t else code)
  {
    match reply
    case RepairThrew => code
    case RepairResponse(text) =>
      var t := text.GetOr("");
      match FencedCode.ExtractFirst(t)
      case Some(body) => body
      case None => if Truthy(text) then text.value else code
  }

  /** Repair is never destructive: it only ever returns the original code,
      the whole reply, or a fence-free block body taken from the reply. */
  lemma RepairResultOrigin(code: string, reply: RepairReply)
    ensures var r := RepairCode(code, reply);
      || r == code
      || (reply.RepairResponse? && r == reply.text.GetOr(""))
      || (reply.RepairResponse? && FencedCode.ExtractFirst(reply.text.GetOr("")) == Some(r)
          && !Contains(r, FencedCode.Fence))
  {
  }

  /** A reply that is exactly one tagged block repairs to that block's body. */
  lemma RepairUnwrapsBlock(code: string, tag: string, body: string)
    requires tag in FencedCode.Tags && '`' !in body
    ensures RepairCode(code, RepairResponse(Some(FencedCode.Fence + tag + body + FencedCode.Fence))) == body
  {
    FencedCode.FenceRoundTrip(tag, body);
  }
}

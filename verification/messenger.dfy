/** The chat window's send handler: the guard, the user message, the
    placeholder model message, one session update per stream item, and the
    composer state afterwards. Every update spreads the session the window
    was rendered with, exactly as the handler's closure does. */
module Messenger {
  import opened Basics
  import opened Types
  import GeminiService
  import SessionStore

  /** The window's own state. */
  datatype Composer = Composer(input: string, selectedImage: Option<string>, isProcessing: bool, mode: EngineMode)

  /** What one press of send does: the sessions handed to `onUpdateSession`,
      in order, the composer afterwards and the generator run, if any. */
  datatype SendResult = SendResult(
    updates: seq<Session>,
    composer: Composer,
    generation: Option<GeminiService.Generation>)

  const ChatContext: string := "محادثة اجتماعية تقنية داخل ميسنجر شاتبنك"

  /** `(!input.trim() && !selectedImage) || isProcessing`. */
  predicate SendBlocked(c: Composer) {
    (Trim(c.input) == "" && !Truthy(c.selectedImage)) || c.isProcessing
  }

  /** The user message: the raw input as a text part, then the image when one is selected. */
  function UserMessage(c: Composer, now: nat): (m: Message)
    ensures m.role == User && m.id == NatToString(now)
    ensures |m.content| >= 1 && m.content[0] == TextPart(c.input)
    ensures |m.content| == 2 <==> Truthy(c.selectedImage)
    ensures |m.content| == 2 ==> m.content[1] == ImagePart(c.selectedImage.value)
  {
    Message(NatToString(now), User,
            [TextPart(c.input)] + (if Truthy(c.selectedImage) then [ImagePart(c.selectedImage.value)] else []),
            None, now, None, None, None)
  }

  /** The placeholder the stream fills in. */
  function Placeholder(mode: EngineMode, now: nat): (m: Message)
    ensures m.role == Model && m.id == NatToString(now + 1)
    ensures m.content == [TextPart("")]
    ensures m.mode == Some(mode) && m.modelName == Some(ModeName(mode))
  {
    Message(NatToString(now + 1), Model, [TextPart("")], Some(mode), now, None, None, Some(ModeName(mode)))
  }

  /** The placeholder as one stream item leaves it. */
  function Filled(placeholder: Message, item: GeminiService.StreamItem): (m: Message)
    ensures m.id == placeholder.id && m.role == placeholder.role && m.mode == placeholder.mode
    ensures m.content == [TextPart(item.text)] && m.sources == item.sources
    ensures m.modelName.Some? <==> item.meta.Some?
    ensures item.meta.Some? ==> m.modelName.value == item.meta.value.model
  {
    placeholder.(content := [TextPart(item.text)],
                 sources := item.sources,
                 modelName := if item.meta.Some? then Some(item.meta.value.model) else None)
  }

  /** The request options the window passes. */
  function SendOptions(c: Composer): (o: GeminiService.Options)
    ensures o.imageBase64.Some? <==> Truthy(c.selectedImage)
    ensures o.imageBase64.Some? ==> o.imageBase64 == c.selectedImage
    ensures o.search == Some(c.mode == Ultra)
    ensures GeminiService.ContextLine(o) == ChatContext
  {
    GeminiService.Options(
      if Truthy(c.selectedImage) then c.selectedImage else None,
      Some(c.mode == Ultra),
      Some(ChatContext))
  }

  /** The sessions handed up by an accepted send whose stream yielded
      `items`: the user message with the bumped timestamp, the placeholder,
      then the placeholder as each item leaves it. */
  function SendUpdates(session: Session, c: Composer, now: nat, items: seq<GeminiService.StreamItem>): (us: seq<Session>)
    ensures |us| == 2 + |items|
  {
    var updated := session.messages + [UserMessage(c, now)];
    var placeholder := Placeholder(c.mode, now);
    var first := session.(messages := updated, lastUpdated := now);
    var second := session.(messages := updated + [placeholder]);
    var streamed := seq(|items|, k requires 0 <= k < |items| =>
                        session.(messages := updated + [Filled(placeholder, items[k])]));
    [first, second] + streamed
  }

  /** `handleSend`, with all clock readings collapsed into `now` and the
      backend replies given. */
  function HandleSend(session: Session, c: Composer, now: nat,
                      local: Option<string>, cloud: GeminiService.CloudReply,
                      start: int, finish: int): (r: SendResult)
    ensures SendBlocked(c) ==> r == SendResult([], c, None)
    ensures !SendBlocked(c) ==> r.generation.Some? && |r.updates| == 2 + |r.generation.value.items|
  {
    if SendBlocked(c) then SendResult([], c, None)
    else
      var gen := GeminiService.Generate(c.input, c.mode, SendOptions(c), local, cloud, start, finish);
      SendResult(SendUpdates(session, c, now, gen.items), Composer("", None, false, c.mode), Some(gen))
  }

  /** Every update after the first holds the old messages, the user message
      and one model message with the placeholder's id: the empty placeholder
      in the second update, and the placeholder as item k leaves it in
      update k + 2. */
  lemma UpdatesShape(session: Session, c: Composer, now: nat, items: seq<GeminiService.StreamItem>)
    ensures var us := SendUpdates(session, c, now, items);
      && us[0] == session.(messages := session.messages + [UserMessage(c, now)], lastUpdated := now)
      && us[1].messages == session.messages + [UserMessage(c, now), Placeholder(c.mode, now)]
      && (forall k | 0 <= k < |items| ::
            us[k + 2].messages == session.messages + [UserMessage(c, now), Filled(Placeholder(c.mode, now), items[k])])
      && (forall k | 1 <= k < |us| ::
            && |us[k].messages| == |session.messages| + 2
            && us[k].messages[..|session.messages| + 1] == session.messages + [UserMessage(c, now)]
            && us[k].messages[|session.messages| + 1].id == NatToString(now + 1)
            && us[k].messages[|session.messages| + 1].role == Model)
  {
    var us := SendUpdates(session, c, now, items);
    var updated := session.messages + [UserMessage(c, now)];
    assert us[1].messages == updated + [Placeholder(c.mode, now)];
    forall k | 0 <= k < |items|
      ensures us[k + 2].messages == session.messages + [UserMessage(c, now), Filled(Placeholder(c.mode, now), items[k])]
    {
      assert us[k + 2].messages == updated + [Filled(Placeholder(c.mode, now), items[k])];
    }
    forall k | 1 <= k < |us|
      ensures us[k].messages[..|session.messages| + 1] == updated
    {
      TakeSnoc(updated, us[k].messages[|updated|]);
    }
  }

  /** A blocked send is a no-op; an accepted one streams the raw input with
      the window's options, appends the user message and the empty
      placeholder, then keeps exactly one model message after it whose id
      never changes and which each stream item refills, and ends with the
      composer cleared and not processing, also when the stream threw. */
  lemma SendShape(session: Session, c: Composer, now: nat,
                  local: Option<string>, cloud: GeminiService.CloudReply, start: int, finish: int)
    requires !SendBlocked(c)
    ensures var r := HandleSend(session, c, now, local, cloud, start, finish);
      && r.composer == Composer("", None, false, c.mode)
      && r.generation.value == GeminiService.Generate(c.input, c.mode, SendOptions(c), local, cloud, start, finish)
      && r.updates[0] == session.(messages := session.messages + [UserMessage(c, now)], lastUpdated := now)
      && r.updates[1].messages == session.messages + [UserMessage(c, now), Placeholder(c.mode, now)]
      && (forall k | 0 <= k < |r.generation.value.items| ::
            r.updates[k + 2].messages[|session.messages| + 1] == Filled(Placeholder(c.mode, now), r.generation.value.items[k]))
      && (forall k | 1 <= k < |r.updates| ::
            && |r.updates[k].messages| == |session.messages| + 2
            && r.updates[k].messages[..|session.messages| + 1] == session.messages + [UserMessage(c, now)]
            && r.updates[k].messages[|session.messages| + 1].id == NatToString(now + 1)
            && r.updates[k].messages[|session.messages| + 1].role == Model)
  {
    var gen := GeminiService.Generate(c.input, c.mode, SendOptions(c), local, cloud, start, finish);
    Accepted(session, c, now, local, cloud, start, finish);
    UpdatesShape(session, c, now, gen.items);
    var r := HandleSend(session, c, now, local, cloud, start, finish);
    assert r.updates == SendUpdates(session, c, now, gen.items) && r.generation.value == gen;
  }

  /** An accepted send, unfolded once. */
  lemma Accepted(session: Session, c: Composer, now: nat,
                 local: Option<string>, cloud: GeminiService.CloudReply, start: int, finish: int)
    requires !SendBlocked(c)
    ensures var gen := GeminiService.Generate(c.input, c.mode, SendOptions(c), local, cloud, start, finish);
      HandleSend(session, c, now, local, cloud, start, finish)
        == SendResult(SendUpdates(session, c, now, gen.items), Composer("", None, false, c.mode), Some(gen))
  {
  }

  /** Each stream item replaces the placeholder's text rather than
      appending to it. */
  lemma StreamReplacesText(session: Session, c: Composer, now: nat,
                           local: Option<string>, cloud: GeminiService.CloudReply,
                           start: int, finish: int, k: nat)
    requires !SendBlocked(c)
    requires k < |HandleSend(session, c, now, local, cloud, start, finish).generation.value.items|
    ensures var r := HandleSend(session, c, now, local, cloud, start, finish);
      r.updates[k + 2].messages[|session.messages| + 1].content
        == [TextPart(r.generation.value.items[k].text)]
  {
  }

  /** The closure spreads the session it was rendered with: every update
      after the first carries the old id, title and `lastUpdated`, so the
      bump made by the first update is lost. */
  lemma LaterUpdatesRevertTimestamp(session: Session, c: Composer, now: nat,
                                    local: Option<string>, cloud: GeminiService.CloudReply,
                                    start: int, finish: int)
    requires !SendBlocked(c)
    ensures var r := HandleSend(session, c, now, local, cloud, start, finish);
      && r.updates[0].lastUpdated == now
      && forall k | 1 <= k < |r.updates| ::
           && r.updates[k].id == session.id
           && r.updates[k].title == session.title
           && r.updates[k].lastUpdated == session.lastUpdated
  {
  }

  /** Search is requested exactly in ULTRA mode, and a cloud stream that
      completes leaves the message without sources or model name, because
      the final item carries neither. */
  lemma FinishedMessageLosesMeta(session: Session, c: Composer, now: nat,
                                 local: Option<string>, cloud: GeminiService.CloudReply,
                                 start: int, finish: int)
    requires !SendBlocked(c) && c.mode != LocalX1 && !cloud.failed
    ensures var r := HandleSend(session, c, now, local, cloud, start, finish);
      var last := r.updates[|r.updates| - 1].messages[|session.messages| + 1];
      && r.generation.value.call.cloud.config.tools.Some? == (c.mode == Ultra)
      && last.content == [TextPart(GeminiService.Accumulated(cloud.chunks))]
      && last.sources.None?
      && last.modelName.None?
  {
  }

  /** A stream that throws is swallowed: no error message is appended, the
      list keeps the model message as the last item left it, and the window
      stops processing. */
  lemma StreamErrorSwallowed(session: Session, c: Composer, now: nat,
                             local: Option<string>, cloud: GeminiService.CloudReply,
                             start: int, finish: int)
    requires !SendBlocked(c) && c.mode != LocalX1 && cloud.failed
    ensures var r := HandleSend(session, c, now, local, cloud, start, finish);
      && |r.updates| == 2 + |cloud.chunks|
      && |r.updates[|r.updates| - 1].messages| == |session.messages| + 2
      && !r.composer.isProcessing
  {
  }

  /** The shell applies every update in turn; after the send the collection
      holds, in the place of the window's session, the old messages followed
      by the user message and the last state of the model message. */
  lemma SendThenApply(sessions: seq<Session>, session: Session, c: Composer, now: nat,
                      local: Option<string>, cloud: GeminiService.CloudReply,
                      start: int, finish: int)
    requires !SendBlocked(c)
    ensures var r := HandleSend(session, c, now, local, cloud, start, finish);
      SessionStore.ApplyUpdates(sessions, r.updates)
        == SessionStore.UpdateSession(sessions, r.updates[|r.updates| - 1])
  {
    var r := HandleSend(session, c, now, local, cloud, start, finish);
    SessionStore.ApplyUpdatesSameId(sessions, r.updates);
  }

  /** The user message and the model message get different ids. */
  lemma MessageIdsDiffer(c: Composer, now: nat)
    ensures UserMessage(c, now).id != Placeholder(c.mode, now).id
  {
    NatToStringInjective(now, now + 1);
  }
}

/** Envelope selection and the wire document of an interaction reply
    (`getJSON` and `isEmpty`). */
module ReplyEnvelope {
  import opened Wrappers
  import opened MessageFlags

  /** A message embed.  Its serialisation and its own `isSendable()` check live
      outside this model: `id` identifies it and `sendable` is the verdict of
      `isSendable()` (non-empty and at most EmbedMaxLengthBot characters long). */
  datatype Embed = Embed(id: nat, sendable: bool)

  /** The longest embed a bot account may send, quoted in the validation error. */
  const EmbedMaxLengthBot: nat := 6000

  /** Raw interaction response type codes.  The proofs use only that they differ. */
  const ChannelMessageWithSource: int := 4
  const DeferredChannelMessageWithSource: int := 5

  /** The two reply shapes: an acknowledgement that defers the visible message,
      optionally carrying the flag mask, or a full channel message whose embed
      list is present only when there are embeds. */
  datatype Envelope =
    | Deferred(dataFlags: Option<JavaInt>)
    | ChannelMessage(content: string, tts: bool, flags: JavaInt, embeds: Option<seq<Embed>>)

  /** A reply with no text and no embeds is answered with a deferred
      acknowledgement (`isEmpty`). */
  predicate IsEmptyReply(content: string, embeds: seq<Embed>) {
    content == [] && embeds == []
  }

  /** The envelope `getJSON` chooses for the accumulated reply state.  Only text
      and embeds select the branch; attachments are not even an input. */
  function Assemble(content: string, tts: bool, flags: JavaInt, embeds: seq<Embed>): (e: Envelope)
    ensures e.Deferred? <==> IsEmptyReply(content, embeds)
    ensures e.Deferred? ==> (e.dataFlags.Some? <==> flags != 0)
    ensures e.Deferred? && e.dataFlags.Some? ==> e.dataFlags.value == flags
    ensures e.ChannelMessage? ==> e.content == content && e.tts == tts && e.flags == flags
    ensures e.ChannelMessage? ==> (e.embeds.Some? <==> embeds != [])
    ensures e.ChannelMessage? && e.embeds.Some? ==> e.embeds.value == embeds
  {
    if IsEmptyReply(content, embeds) then
      Deferred(if flags != 0 then Some(flags) else None)
    else
      ChannelMessage(content, tts, flags, if embeds != [] then Some(embeds) else None)
  }

  /** A structured document, as built with `DataObject`/`DataArray`.  Embeds
      appear as opaque leaves: their own serialisation is not part of this model. */
  datatype Json =
    | JInt(i: int)
    | JBool(b: bool)
    | JStr(s: string)
    | JEmbed(embed: Embed)
    | JArray(items: seq<Json>)
    | JObject(fields: map<string, Json>)

  function EmbedsToJson(es: seq<Embed>): (items: seq<Json>)
    ensures |items| == |es|
    ensures forall k :: 0 <= k < |es| ==> items[k] == JEmbed(es[k])
  {
    if es == [] then [] else [JEmbed(es[0])] + EmbedsToJson(es[1..])
  }

  function EmbedsFromJson(items: seq<Json>): Option<seq<Embed>> {
    if items == [] then Some([])
    else if !items[0].JEmbed? then None
    else match EmbedsFromJson(items[1..])
      case None => None
      case Some(rest) => Some([items[0].embed] + rest)
  }

  lemma {:induction false} EmbedsRoundTrip(es: seq<Embed>)
    ensures EmbedsFromJson(EmbedsToJson(es)) == Some(es)
  {
    if es != [] {
      var items := EmbedsToJson(es);
      EmbedsRoundTrip(es[1..]);
      assert items[1..] == EmbedsToJson(es[1..]);
      assert items[0] == JEmbed(es[0]);
      assert [es[0]] + es[1..] == es;
    }
  }

  /** The `data` object of a channel message. */
  function MessageData(content: string, tts: bool, flags: JavaInt, embeds: Option<seq<Embed>>): map<string, Json> {
    var base := map["content" := JStr(content), "tts" := JBool(tts), "flags" := JInt(flags)];
    if embeds.Some? then base["embeds" := JArray(EmbedsToJson(embeds.value))] else base
  }

  /** The document sent for an envelope: `type` holds the response code and
      `data` the payload. */
  function ToDocument(e: Envelope): (doc: Json)
    ensures doc.JObject? && "type" in doc.fields
    ensures doc.fields["type"] ==
      JInt(if e.Deferred? then DeferredChannelMessageWithSource else ChannelMessageWithSource)
    ensures "data" in doc.fields <==> !(e.Deferred? && e.dataFlags.None?)
    ensures doc.fields.Keys <= {"type", "data"}
  {
    match e
    case Deferred(None) =>
      JObject(map["type" := JInt(DeferredChannelMessageWithSource)])
    case Deferred(Some(f)) =>
      JObject(map["type" := JInt(DeferredChannelMessageWithSource),
                  "data" := JObject(map["flags" := JInt(f)])])
    case ChannelMessage(c, t, f, es) =>
      JObject(map["data" := JObject(MessageData(c, t, f, es)),
                  "type" := JInt(ChannelMessageWithSource)])
  }

  /** The document `getJSON` builds from the reply state. */
  function GetJson(content: string, tts: bool, flags: JavaInt, embeds: seq<Embed>): Json {
    ToDocument(Assemble(content, tts, flags, embeds))
  }

  function JavaIntField(fields: map<string, Json>, key: string): Option<JavaInt> {
    if key in fields && fields[key].JInt? && -0x8000_0000 <= fields[key].i < 0x8000_0000
    then Some(fields[key].i) else None
  }

  /** Reads a reply document back into its envelope, or None when it is not
      one of the two shapes. */
  function FromDocument(doc: Json): Option<Envelope> {
    if !doc.JObject? || "type" !in doc.fields || !doc.fields["type"].JInt? then None
    else
      var code := doc.fields["type"].i;
      var hasData := "data" in doc.fields && doc.fields["data"].JObject?;
      if code == DeferredChannelMessageWithSource then
        if "data" !in doc.fields then Some(Deferred(None))
        else if !hasData then None
        else match JavaIntField(doc.fields["data"].fields, "flags")
          case None => None
          case Some(f) => Some(Deferred(Some(f)))
      else if code == ChannelMessageWithSource && hasData then
        var data := doc.fields["data"].fields;
        if "content" !in data || !data["content"].JStr? || "tts" !in data || !data["tts"].JBool? then None
        else match JavaIntField(data, "flags")
          case None => None
          case Some(f) =>
            if "embeds" !in data then Some(ChannelMessage(data["content"].s, data["tts"].b, f, None))
            else if !data["embeds"].JArray? then None
            else match EmbedsFromJson(data["embeds"].items)
              case None => None
              case Some(es) => Some(ChannelMessage(data["content"].s, data["tts"].b, f, Some(es)))
      else None
  }

  /** Every envelope survives a trip through its document. */
  lemma EnvelopeRoundTrip(e: Envelope)
    ensures FromDocument(ToDocument(e)) == Some(e)
  {
    if e.ChannelMessage? && e.embeds.Some? {
      EmbedsRoundTrip(e.embeds.value);
    }
  }

  /** An empty reply: `type` is the deferred code, and `data` is present exactly
      when the mask is non-zero, holding nothing but the flags. */
  lemma DeferredDocument(content: string, tts: bool, flags: JavaInt, embeds: seq<Embed>)
    requires IsEmptyReply(content, embeds)
    ensures GetJson(content, tts, flags, embeds).JObject?
    ensures var fields := GetJson(content, tts, flags, embeds).fields;
      && "type" in fields && fields["type"] == JInt(DeferredChannelMessageWithSource)
      && ("data" in fields <==> flags != 0)
      && (flags != 0 ==> fields["data"] == JObject(map["flags" := JInt(flags)]))
      && fields.Keys <= {"type", "data"}
  {
  }

  /** A non-empty reply: `type` is the channel-message code and `data` holds the
      text, the tts switch, the mask and, only when there are any, the embeds in
      insertion order. */
  lemma ChannelMessageDocument(content: string, tts: bool, flags: JavaInt, embeds: seq<Embed>)
    requires !IsEmptyReply(content, embeds)
    ensures GetJson(content, tts, flags, embeds).JObject?
    ensures var fields := GetJson(content, tts, flags, embeds).fields;
      && fields.Keys == {"type", "data"}
      && fields["type"] == JInt(ChannelMessageWithSource)
      && fields["data"].JObject?
      && var data := fields["data"].fields;
      && "content" in data && data["content"] == JStr(content)
      && "tts" in data && data["tts"] == JBool(tts)
      && "flags" in data && data["flags"] == JInt(flags)
      && ("embeds" in data <==> embeds != [])
      && (embeds != [] ==> data["embeds"] == JArray(EmbedsToJson(embeds)))
  {
  }

  /** The worked example of a non-empty reply with two embeds: decoding its
      document yields the text, the mask and both embeds back. */
  lemma TwoEmbedExample(a: Embed, b: Embed)
    ensures var doc := GetJson("hi", false, 0, [a, b]);
      FromDocument(doc) == Some(ChannelMessage("hi", false, 0, Some([a, b])))
  {
    EnvelopeRoundTrip(ChannelMessage("hi", false, 0, Some([a, b])));
  }
}

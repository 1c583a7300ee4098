# Slash-command reply action, modelled in Dafny

This project models `CommandReplyActionImpl`, the JDA action that builds and
sends the reply to a slash-command interaction. The reply is accumulated in a
mutable object: text, a text-to-speech switch, a flag bitmask, up to ten
embeds, and a map of attachment streams. When the request is sent, the action
does three things:

- It picks the wire envelope. An empty reply (no text, no embeds) becomes a
  deferred acknowledgement. Anything else becomes a full channel message.
- It builds the request body. This is the plain document, or a multipart body
  with one `file<i>` part per attachment and a trailing `payload_json` part.
  Building a multipart body consumes the attachments.
- It routes the outcome to the interaction's thread handle: `ready` and then the
  success callback, or `fail` with an interaction failure before the response
  is passed on.

Files:

- `wrappers.dfy`: `Option` (stands for a Java `null` or a value) and
  `Outcome` (stands for a thrown exception or a normal return).
- `flags.dfy` (module `MessageFlags`): the Java `int` flag mask and the
  EPHEMERAL bit. Bitwise OR and AND-NOT of a single bit are written as the
  equivalent addition and subtraction. The bit is read by floor division,
  which matches a two's-complement `int` for negative values too.
- `envelope.dfy` (module `ReplyEnvelope`): embeds, the two-way `Envelope`
  choice (`Assemble`, i.e. `isEmpty`/`getJSON`), a small JSON-like document
  model (`Json`), the document of an envelope (`ToDocument`) and a decoder
  (`FromDocument`) that round-trips it.
- `attachments.dfy` (module `Attachments`): the attachment map as an ordered
  association list (`Put`, `Lookup`), the stored spoiler name, decimal
  printing for the `file<i>` field names, and the body and part shapes.
- `reply_action.dfy` (module `CommandReply`): the class
  `CommandReplyAction` with the source's fields and methods, the thread handle
  `CommandThread` (state plus a log of `ready`/`fail` calls), and `Request`
  (a log of success-callback deliveries).

Constants that the action uses but does not define are fixed to the values the
service publishes. They are: the response type codes 4 (channel message) and 5
(deferred channel message), EPHEMERAL = 64 (1 << 6), and the bot embed length
limit 6000. The proofs run on these fixed values. `|=` and `&= ~` on the mask
are written as adding and subtracting EPHEMERAL. That is exact because
EPHEMERAL is one bit below the sign bit; it would not be for bit 31.

Java's `HashMap` has no defined iteration order. In the model, the iteration
order is the order of the association list: a new name is appended, and a name
already present keeps its place while its stream is replaced.

Two behaviours of the code are worth stating:

- `setEphemeral(true)` then `setEphemeral(false)` clears EPHEMERAL
  unconditionally. So the starting mask comes back only when the bit was clear
  (`MessageFlags.OnThenOff`).
- Nothing in the action guards the thread handle against a second `ready` or
  `fail`, and the model adds no guard. Each handler call performs exactly one
  `ready` call, or at most one `fail` call, on the handle.

## Model

| member | source | states |
|---|---|---|
| MessageFlags.WithEphemeral | src/main/java/net/dv8tion/jda/internal/requests/restaction/CommandReplyActionImpl.java:139-146 | after setting, the EPHEMERAL bit equals the requested value and every other bit of the mask is unchanged |
| MessageFlags.WithEphemeralLastWins | src/main/java/net/dv8tion/jda/internal/requests/restaction/CommandReplyActionImpl.java:139-146 | two calls in a row act as the second call alone, so repeating a call is idempotent |
| MessageFlags.OnThenOff | src/main/java/net/dv8tion/jda/internal/requests/restaction/CommandReplyActionImpl.java:139-146 | switching on and then off leaves the mask with EPHEMERAL cleared, which equals the starting mask iff EPHEMERAL was clear |
| ReplyEnvelope.IsEmptyReply | src/main/java/net/dv8tion/jda/internal/requests/restaction/CommandReplyActionImpl.java:97-100 | a reply is empty when it has no text and no embeds; `Assemble` picks the deferred acknowledgement exactly for these replies |
| ReplyEnvelope.Assemble | src/main/java/net/dv8tion/jda/internal/requests/restaction/CommandReplyActionImpl.java:72-100 | deferred iff there is no text and no embeds (flags and files never decide); a deferred ack carries the flags iff they are non-zero; a channel message carries text, tts and flags, and the embeds iff there are any |
| ReplyEnvelope.ToDocument | src/main/java/net/dv8tion/jda/internal/requests/restaction/CommandReplyActionImpl.java:72-95 | the document always has `type`, holding the deferred code for a deferred acknowledgement and the channel-message code otherwise; `data` is present except for a deferred acknowledgement without flags; no other top-level key appears |
| ReplyEnvelope.GetJson | src/main/java/net/dv8tion/jda/internal/requests/restaction/CommandReplyActionImpl.java:72-95 | the document of the chosen envelope; its contract is stated by `DeferredDocument` and `ChannelMessageDocument` below |
| ReplyEnvelope.DeferredDocument | src/main/java/net/dv8tion/jda/internal/requests/restaction/CommandReplyActionImpl.java:74-80 | for an empty reply the document's `type` is the deferred code, `data` is present iff flags are non-zero and then holds exactly `{flags}`, and no other key appears |
| ReplyEnvelope.ChannelMessageDocument | src/main/java/net/dv8tion/jda/internal/requests/restaction/CommandReplyActionImpl.java:81-93 | for a non-empty reply the document has exactly `type` (channel-message code) and `data` holding content, tts and flags, plus `embeds` in insertion order iff the embed list is non-empty |
| ReplyEnvelope.EmbedsRoundTrip | src/main/java/net/dv8tion/jda/internal/requests/restaction/CommandReplyActionImpl.java:88-89 | the embed array decodes back to the same embeds in the same order |
| ReplyEnvelope.EnvelopeRoundTrip | src/main/java/net/dv8tion/jda/internal/requests/restaction/CommandReplyActionImpl.java:72-95 | decoding the document of any envelope gives back that envelope |
| ReplyEnvelope.TwoEmbedExample | src/main/java/net/dv8tion/jda/internal/requests/restaction/CommandReplyActionImpl.java:81-93 | the reply "hi", tts off, flags 0, with two embeds decodes back to the same text, mask and both embeds |
| Attachments.Put | src/main/java/net/dv8tion/jda/internal/requests/restaction/CommandReplyActionImpl.java:158 | a new name is appended; an existing name keeps its position and gets the new stream; every other entry is unchanged; names stay distinct |
| Attachments.PutLookupSame | src/main/java/net/dv8tion/jda/internal/requests/restaction/CommandReplyActionImpl.java:158 | after a put the name maps to the new stream |
| Attachments.PutLookupOther | src/main/java/net/dv8tion/jda/internal/requests/restaction/CommandReplyActionImpl.java:158 | after a put every other name maps to what it did before |
| Attachments.StoredName | src/main/java/net/dv8tion/jda/internal/requests/restaction/CommandReplyActionImpl.java:155-156 | with at least one option the stored name is `SPOILER_` followed by the name, otherwise the name itself; the name is always its suffix |
| Attachments.StoredNamesDistinct | src/main/java/net/dv8tion/jda/internal/requests/restaction/CommandReplyActionImpl.java:155-158 | with the same option choice, different names give different stored names, and a spoiler name never equals the plain name of the same file |
| Attachments.NatToStringInjective | src/main/java/net/dv8tion/jda/internal/requests/restaction/CommandReplyActionImpl.java:114 | distinct attachment indices print as distinct decimal texts |
| Attachments.FieldNamesDistinct | src/main/java/net/dv8tion/jda/internal/requests/restaction/CommandReplyActionImpl.java:110-117 | the `file<i>` field names are pairwise distinct and none is `payload_json` |
| CommandReply.CommandReplyAction.constructor | src/main/java/net/dv8tion/jda/internal/requests/restaction/CommandReplyActionImpl.java:51-65 | a new action has empty text, tts off, flags 0, no embeds, no files, and holds the given thread |
| CommandReply.CommandReplyAction.SetContent | src/main/java/net/dv8tion/jda/internal/requests/restaction/CommandReplyActionImpl.java:218-222 | null stores the empty text, any other text is stored as given; nothing else changes |
| CommandReply.CommandReplyAction.SetTts | src/main/java/net/dv8tion/jda/internal/requests/restaction/CommandReplyActionImpl.java:210-214 | stores the switch; nothing else changes |
| CommandReply.CommandReplyAction.SetEphemeral | src/main/java/net/dv8tion/jda/internal/requests/restaction/CommandReplyActionImpl.java:139-146 | the EPHEMERAL bit becomes the argument, the other bits and all other fields are unchanged |
| CommandReply.CommandReplyAction.AddFile | src/main/java/net/dv8tion/jda/internal/requests/restaction/CommandReplyActionImpl.java:150-160 | null stream, null or empty name, and null options (or a null option) are rejected in that order, leaving the files unchanged; otherwise the stream is put under `SPOILER_`+name iff an option is given, else under the name |
| CommandReply.CommandReplyAction.AddEmbeds | src/main/java/net/dv8tion/jda/internal/requests/restaction/CommandReplyActionImpl.java:164-178 | a null element, an embed that is not sendable, or old plus new count over 10 fails (in that order) with the embeds unchanged; otherwise the embeds are appended in order; the list never exceeds 10 |
| CommandReply.CommandReplyAction.FinalizeData | src/main/java/net/dv8tion/jda/internal/requests/restaction/CommandReplyActionImpl.java:103-120 | no files gives the plain document; n files give parts `file0`..`file(n-1)` in map order with their stored names and streams, then `payload_json` with the document; afterwards there are no files |
| CommandReply.CommandReplyAction.HandleSuccess | src/main/java/net/dv8tion/jda/internal/requests/restaction/CommandReplyActionImpl.java:122-127 | the thread is made ready, and then the success callback receives that same thread, already ready |
| CommandReply.CommandReplyAction.HandleResponse | src/main/java/net/dv8tion/jda/internal/requests/restaction/CommandReplyActionImpl.java:129-135 | the thread is failed with an interaction failure iff the response is not OK (otherwise it is untouched), and the response is then always passed on, after the failure |
| CommandReply.FinalizeTwiceExample | src/main/java/net/dv8tion/jda/internal/requests/restaction/CommandReplyActionImpl.java:103-120 | files A then B (B with an option) give `file0` (A), `file1` (`SPOILER_B`) and `payload_json`; a second finalisation gives the document alone |

## Left out

- `reset`, `applyMessage` and every `mention`/`mentionUsers`/`mentionRoles` overload return the action and change nothing, so they have nothing to state.
- `setCheck`, `timeout` and `deadline` only pass through to the inherited request machinery, which is not part of this model.
- `setAllowedMentions` and the fields `allowedMentions`, `mentionedUsers` and `mentionedRoles` are stored but never serialised, so they do not affect anything the model states.
- CommandReply.CommandReplyAction.HandleResponse: the inherited `handleResponse` is recorded as a hand-over (with the response and the thread's state at that moment), not modelled, because its code is not part of this model.
- The transport (`RestActionImpl`, `Requester`), the multipart encoding (`MultipartBody`, `IOUtil.createRequestBody`, the octet-stream media type) and `json.toString()` are left out: parts carry the document and the stream identities, not bytes.
- `DataObject`/`DataArray` internals and `MessageEmbed` serialisation are left out: embeds are opaque leaves of the document, and `isSendable()` is a field of the embed.
- Stream contents are left out; a stream is an identity.
- `CommandThreadImpl` is not part of this model: `ready()` and `fail(e)` are taken to set the handle's state and are logged.
- `Checks` is not part of this model: `notEmpty` is taken to reject a null name as null before it rejects an empty one.
- Asynchronous delivery and concurrency are left out: each handler is modelled as a single sequential call.

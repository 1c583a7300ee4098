/** The slash-command reply action (`CommandReplyActionImpl`): a mutable
    accumulator of the reply, the body it finally sends, and the routing of the
    outcome to the interaction's thread handle. */
module CommandReply {
  import opened Wrappers
  import opened MessageFlags
  import opened ReplyEnvelope
  import opened Attachments

  /** At most this many embeds go into one message. */
  const MaxEmbeds: nat := 10

  /** Options of an attachment; any option at all marks the file as a spoiler. */
  datatype AttachmentOption = Spoiler

  /** The exceptions a builder call throws. */
  datatype Error =
    | NullArgument(argument: string)     // a required argument or element is null
    | EmptyArgument(argument: string)    // a required string is empty
    | EmbedNotSendable(maxLength: nat)   // an embed fails `isSendable()`
    | TooManyEmbeds(limit: nat)          // the message would hold more than `limit` embeds

  /** The error a failed interaction hands to its thread. */
  datatype InteractionFailure = InteractionFailureException

  datatype ThreadState = Pending | Ready | Failed(error: InteractionFailure)

  datatype ThreadCall = ReadyCalled | FailCalled(error: InteractionFailure)

  /** The interaction's thread handle.  Its own code is not part of this model:
      `ready()` and `fail(e)` are taken to set the state and are logged, with no
      guard against a second transition (the reply action adds none either). */
  class CommandThread {
    var state: ThreadState
    var calls: seq<ThreadCall>

    constructor ()
      ensures state == Pending && calls == []
    {
      state := Pending;
      calls := [];
    }

    method MarkReady()
      modifies this
      ensures state == Ready && calls == old(calls) + [ReadyCalled]
    {
      state := Ready;
      calls := calls + [ReadyCalled];
    }

    method Fail(e: InteractionFailure)
      modifies this
      ensures state == Failed(e) && calls == old(calls) + [FailCalled(e)]
    {
      state := Failed(e);
      calls := calls + [FailCalled(e)];
    }
  }

  /** A transport response; only whether it is OK matters here. */
  datatype Response = Response(id: nat, isOk: bool)

  /** One call of the request's success callback, with the state the handle it
      was given was in at that moment. */
  datatype Delivery = Delivery(handle: CommandThread, handleState: ThreadState)

  /** The request being answered, reduced to its success callback. */
  class Request {
    var delivered: seq<Delivery>

    constructor ()
      ensures delivered == []
    {
      delivered := [];
    }

    method OnSuccess(t: CommandThread)
      modifies this
      ensures delivered == old(delivered) + [Delivery(t, t.state)]
    {
      delivered := delivered + [Delivery(t, t.state)];
    }
  }

  /** One hand-over to the inherited response handler, with the state of the
      thread handle at that moment. */
  datatype Delegation = Delegation(response: Response, handleState: ThreadState)

  predicate NoneNull<T>(xs: seq<Option<T>>) {
    forall i | 0 <= i < |xs| :: xs[i].Some?
  }

  function Values<T>(xs: seq<Option<T>>): seq<T>
    requires NoneNull(xs)
  {
    seq(|xs|, i requires 0 <= i < |xs| => xs[i].value)
  }

  predicate AllSendable(es: seq<Option<Embed>>)
    requires NoneNull(es)
  {
    forall i | 0 <= i < |es| :: es[i].value.sendable
  }

  class CommandReplyAction {
    const thread: CommandThread
    var embeds: seq<Embed>
    var files: seq<FileEntry>
    var flags: JavaInt
    var content: string
    var tts: bool
    /** The responses passed on to the inherited handler, whose own logic is
        not part of this model. */
    var delegated: seq<Delegation>

    ghost predicate Valid()
      reads this
    {
      |embeds| <= MaxEmbeds && DistinctNames(files)
    }

    constructor (thread: CommandThread)
      ensures Valid() && this.thread == thread
      ensures content == "" && !tts && flags == 0
      ensures embeds == [] && files == [] && delegated == []
    {
      this.thread := thread;
      embeds := [];
      files := [];
      flags := 0;
      content := "";
      tts := false;
      delegated := [];
    }

    /** `setContent`: null stands for the empty text. */
    method SetContent(text: Option<string>)
      requires Valid()
      modifies this`content
      ensures Valid()
      ensures content == if text.None? then "" else text.value
    {
      content := if text.None? then "" else text.value;
    }

    method SetTts(isTts: bool)
      requires Valid()
      modifies this`tts
      ensures Valid()
      ensures tts == isTts
    {
      tts := isTts;
    }

    /** `setEphemeral`: only the EPHEMERAL bit of the mask changes. */
    method SetEphemeral(ephemeral: bool)
      requires Valid()
      modifies this`flags
      ensures Valid()
      ensures IsEphemeral(flags) == ephemeral
      ensures OtherBits(flags) == OtherBits(old(flags))
      ensures flags == WithEphemeral(old(flags), ephemeral)
    {
      if ephemeral {
        flags := WithEphemeral(flags, true);
      } else {
        flags := WithEphemeral(flags, false);
      }
    }

    /** `addFile`: checks the stream, the name and the options in that order;
        on success stores the stream under the (possibly spoiler-marked) name,
        replacing any stream already stored under it. */
    method AddFile(data: Option<StreamId>, name: Option<string>, options: Option<seq<Option<AttachmentOption>>>)
      returns (r: Outcome<Error>)
      requires Valid()
      modifies this`files
      ensures Valid()
      ensures data.None? ==> r == Fail(NullArgument("Data"))
      ensures data.Some? && name.None? ==> r == Fail(NullArgument("Name"))
      ensures data.Some? && name.Some? && name.value == "" ==> r == Fail(EmptyArgument("Name"))
      ensures data.Some? && name.Some? && name.value != "" && (options.None? || !NoneNull(options.value))
        ==> r == Fail(NullArgument("Options"))
      ensures r.Pass? <==> data.Some? && name.Some? && name.value != "" && options.Some? && NoneNull(options.value)
      ensures r.Fail? ==> files == old(files)
      ensures r.Pass? ==> files == Put(old(files), StoredName(name.value, |options.value|), data.value)
    {
      if data.None? {
        return Fail(NullArgument("Data"));
      }
      if name.None? {
        return Fail(NullArgument("Name"));
      }
      if name.value == "" {
        return Fail(EmptyArgument("Name"));
      }
      if options.None? || !NoneNull(options.value) {
        return Fail(NullArgument("Options"));
      }
      var stored := name.value;
      if |options.value| > 0 {
        stored := SpoilerPrefix + stored;
      }
      files := Put(files, stored, data.value);
      r := Pass;
    }

    /** `addEmbeds`: checks for null elements, then that every embed is
        sendable, then the ceiling counting the embeds already added; only when
        all checks pass are the embeds appended, in order. */
    method AddEmbeds(added: Option<seq<Option<Embed>>>) returns (r: Outcome<Error>)
      requires Valid()
      modifies this`embeds
      ensures Valid()
      ensures added.None? || !NoneNull(added.value) ==> r == Fail(NullArgument("MessageEmbed"))
      ensures added.Some? && NoneNull(added.value) && !AllSendable(added.value)
        ==> r == Fail(EmbedNotSendable(EmbedMaxLengthBot))
      ensures added.Some? && NoneNull(added.value) && AllSendable(added.value)
        ==> r == if |old(embeds)| + |added.value| > MaxEmbeds then Fail(TooManyEmbeds(MaxEmbeds)) else Pass
      ensures r.Fail? ==> embeds == old(embeds)
      ensures r.Pass? ==> embeds == old(embeds) + Values(added.value)
    {
      if added.None? || !NoneNull(added.value) {
        return Fail(NullArgument("MessageEmbed"));
      }
      var es := added.value;
      var i := 0;
      while i < |es|
        invariant 0 <= i <= |es|
        invariant forall k :: 0 <= k < i ==> es[k].value.sendable
      {
        if !es[i].value.sendable {
          return Fail(EmbedNotSendable(EmbedMaxLengthBot));
        }
        i := i + 1;
      }
      if |es| + |embeds| > MaxEmbeds {
        return Fail(TooManyEmbeds(MaxEmbeds));
      }
      embeds := embeds + Values(es);
      r := Pass;
    }

    /** `finalizeData`: with no attachments, the document alone; otherwise one
        part `file<i>` per attachment in map order, under its stored name, then
        the document as `payload_json`, after which the attachments are gone. */
    method FinalizeData() returns (body: Body)
      requires Valid()
      modifies this`files
      ensures Valid() && files == []
      ensures old(files) == [] ==> body == PlainBody(GetJson(content, tts, flags, embeds))
      ensures old(files) != [] ==> body.Multipart? && |body.parts| == |old(files)| + 1
      ensures old(files) != [] ==> forall i :: 0 <= i < |old(files)| ==>
        body.parts[i] == FilePart(FileFieldName(i), old(files)[i].name, old(files)[i].stream)
      ensures old(files) != [] ==> body.parts[|old(files)|] == JsonPart(PayloadFieldName, GetJson(content, tts, flags, embeds))
    {
      var json := GetJson(content, tts, flags, embeds);
      if files == [] {
        return PlainBody(json);
      }
      var parts: seq<Part> := [];
      var i := 0;
      while i < |files|
        invariant 0 <= i <= |files|
        invariant |parts| == i
        invariant forall k :: 0 <= k < i ==> parts[k] == FilePart(FileFieldName(k), files[k].name, files[k].stream)
      {
        parts := parts + [FilePart(FileFieldName(i), files[i].name, files[i].stream)];
        i := i + 1;
      }
      parts := parts + [JsonPart(PayloadFieldName, json)];
      files := [];
      body := Multipart(parts);
    }

    /** `handleSuccess`: the handle becomes ready, then the request's success
        callback receives that same handle. */
    method HandleSuccess(response: Response, request: Request)
      requires Valid()
      modifies thread, request
      ensures Valid()
      ensures thread.state == Ready && thread.calls == old(thread.calls) + [ReadyCalled]
      ensures request.delivered == old(request.delivered) + [Delivery(thread, Ready)]
    {
      thread.MarkReady();
      request.OnSuccess(thread);
    }

    /** `handleResponse`: a response that is not OK fails the handle with an
        interaction failure; every response is then passed on to the inherited
        handler. */
    method HandleResponse(response: Response, request: Request)
      requires Valid()
      modifies thread, this`delegated
      ensures Valid()
      ensures !response.isOk ==> thread.state == Failed(InteractionFailureException)
      ensures !response.isOk ==> thread.calls == old(thread.calls) + [FailCalled(InteractionFailureException)]
      ensures response.isOk ==> thread.state == old(thread.state) && thread.calls == old(thread.calls)
      ensures delegated == old(delegated) + [Delegation(response, thread.state)]
    {
      if !response.isOk {
        thread.Fail(InteractionFailureException);
      }
      delegated := delegated + [Delegation(response, thread.state)];
    }
  }

  /** Two attachments, the second with an option, added to an otherwise empty
      reply: the first body sends them as `file0` and `file1` (the second under
      its spoiler name) before the payload; the attachments are consumed, so a
      second body is the bare deferred acknowledgement. */
  method FinalizeTwiceExample(a: StreamId, b: StreamId) returns (first: Body, second: Body)
    ensures first.Multipart? && |first.parts| == 3
    ensures first.parts[0] == FilePart("file0", "A", a)
    ensures first.parts[1] == FilePart("file1", "SPOILER_B", b)
    ensures first.parts[2] == JsonPart("payload_json", JObject(map["type" := JInt(DeferredChannelMessageWithSource)]))
    ensures second == PlainBody(JObject(map["type" := JInt(DeferredChannelMessageWithSource)]))
  {
    var handle := new CommandThread();
    var action := new CommandReplyAction(handle);
    var r1 := action.AddFile(Some(a), Some("A"), Some([]));
    assert action.files == [FileEntry("A", a)];
    var r2 := action.AddFile(Some(b), Some("B"), Some([Some(Spoiler)]));
    assert StoredName("B", 1) == "SPOILER_B";
    assert Lookup([FileEntry("A", a)], "SPOILER_B").None?;
    assert action.files == [FileEntry("A", a), FileEntry("SPOILER_B", b)];
    first := action.FinalizeData();
    second := action.FinalizeData();
    assert FileFieldName(0) == "file0" && FileFieldName(1) == "file1";
  }
}

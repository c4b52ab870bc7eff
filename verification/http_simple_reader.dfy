/**
 * The simple HTTP reader: callbacks that collect what the streaming HTTP
 * reader reports into one message object, the body decoding applied once a
 * message is complete, the top-level read with its result mapping and
 * cleanup, the parser wrapper, and the null-guarded accessors.
 *
 * The streaming reader itself, the text codecs, URI parsing, integer
 * parsing and Content-Type analysis are not part of this model; they enter
 * as the total functions of an `Env`.  A run of the streaming reader is the
 * sequence of callback events it would deliver, its own verdict when every
 * callback succeeds, and the count of bytes it reports as read.
 */
module HttpSimpleReader {
  import opened Strings
  import opened HttpHeaders

  type Byte = b: int | 0 <= b < 0x100
  type Bytes = seq<Byte>
  type U32 = n: nat | n < 0x1_0000_0000
  type Int64 = i: int | -0x8000_0000_0000_0000 <= i < 0x8000_0000_0000_0000

  /** M_http_message_type_t */
  datatype MessageType = MessageTypeUnknown | MessageTypeRequest | MessageTypeResponse

  /** M_http_version_t */
  datatype Version = VersionUnknown | Version1_0 | Version1_1 | Version2

  /** M_http_method_t */
  datatype HttpMethod =
    | MethodUnknown | MethodOptions | MethodGet | MethodHead | MethodPost
    | MethodPut | MethodDelete | MethodTrace | MethodConnect

  /** M_http_data_format_t */
  datatype DataFormat = FormatNone | FormatBody | FormatChunked | FormatMultipart | FormatUnknown

  /** M_textcodec_codec_t, reduced to what the decoding distinguishes. */
  datatype Codec = CodecUnknown | CodecUtf8 | CodecOther(id: nat)

  /** M_http_error_t; `ReaderError` stands for the streaming reader's own failures. */
  datatype HttpError =
    | Success | MoreData | InvalidUse | ErrUri | UnsupportedData | LengthRequired
    | ContentLengthMalformed | ChunkExtensionNotAllowed | TrailerNotAllowed
    | TextcodecFailure | ReaderError(code: nat)

  /** The M_http_simple_read_flags_t bits. */
  datatype ReadFlags = ReadFlags(lenRequired: bool, failExtension: bool, failTrailers: bool, nodecodeBody: bool)

  /** The parts of M_http_t that the simple reader sets or reads. */
  datatype Http = Http(
    messageType: MessageType,
    version: Version,
    requestMethod: HttpMethod,
    uri: string,
    statusCode: U32,
    reasonPhrase: string,
    headers: Headers,
    body: Bytes,
    bodyLen: nat,
    haveBodyLen: bool,
    contentType: string,
    codec: Codec,
    charset: string)

  /** A message as M_http_create leaves it. */
  const EmptyHttp: Http :=
    Http(MessageTypeUnknown, VersionUnknown, MethodUnknown, "", 0, "", map[], [], 0, false, "", CodecUnknown, "")

  /** The fields of M_http_simple_read_t: the message, the flags and whether the message is complete. */
  datatype ReadState = ReadState(http: Http, rflags: ReadFlags, rdone: bool)

  /** What a Content-Type value says about the body. */
  datatype ContentInfo = ContentInfo(contentType: string, codec: Codec, charset: string)

  /** The two decodings the body can undergo. */
  datatype DecodeFrom = PercentForm | FromCodec(codec: Codec)

  /** The result of M_textcodec_decode: the text produced and whether it counts as success. */
  datatype Decoding = Decoding(out: Bytes, ok: bool)

  /** One call the streaming reader makes into the simple reader's callbacks. */
  datatype Event =
    | Start(messageType: MessageType, version: Version, requestMethod: HttpMethod, uri: string,
            code: U32, reason: string)
    | Header(key: string, value: string)
    | HeaderDone(format: DataFormat)
    | Body(data: Bytes)
    | BodyDone
    | ChunkExtension(key: string, value: string, idx: nat)
    | ChunkData(data: Bytes, idx: nat)
    | ChunkFinished
    | Trailer(key: string, value: string)
    | TrailerDone

  /** A run of M_http_reader_read on some input. */
  datatype ReaderRun = ReaderRun(events: seq<Event>, verdict: HttpError, lenRead: nat)

  /** The behaviour of code outside this model. */
  datatype Env = Env(
    reader: Bytes -> ReaderRun,                 // M_http_reader_read
    uriAccepted: string -> bool,                // M_http_set_uri's result
    parseInt64: string -> Option<Int64>,        // M_str_to_int64_ex in base 10
    contentInfo: string -> ContentInfo,         // what a Content-Type header sets
    decode: (DecodeFrom, Bytes) -> Decoding)    // M_textcodec_decode with the replace handler

  /** A callback's effect: the new state and the code it returns. */
  datatype StepResult = StepResult(state: ReadState, err: HttpError)

  const ContentLengthKey: string := "content-length"
  const ContentTypeKey: string := "content-type"
  const FormUrlencoded: string := "application/x-www-form-urlencoded"

  /** M_hash_dict_get_direct on the headers: the first Content-Length value, "" when there is none. */
  function ContentLength(h: Headers): (r: string)
    ensures Get(h, ContentLengthKey) == [] ==> r == ""
    ensures Get(h, ContentLengthKey) != [] ==> r == Get(h, ContentLengthKey)[0]
  {
    var vs := Get(h, ContentLengthKey);
    if vs == [] then "" else vs[0]
  }

  /** M_http_set_header_append: one more value under the key; a Content-Type also sets the content fields. */
  function AppendHeader(env: Env, http: Http, key: string, value: string): (r: Http)
    ensures Values(r.headers, key) == Values(http.headers, key) + [value]
    ensures forall k :: Lower(k) != Lower(key) ==> Values(r.headers, k) == Values(http.headers, k)
    ensures r.body == http.body && r.bodyLen == http.bodyLen && r.haveBodyLen == http.haveBodyLen
  {
    var k := Lower(key);
    LowerIdempotent(key);
    var h := http.(headers := http.headers[k := Get(http.headers, k) + [value]]);
    if CaseEq(key, ContentTypeKey) then
      var info := env.contentInfo(value);
      h.(contentType := info.contentType, codec := info.codec, charset := info.charset)
    else h
  }

  /**
   * The effect of each callback of M_http_simple_read on the state.  The
   * start callback records the start line; header-done checks the data
   * format and the Content-Length; body data is appended; the end of a body,
   * of the chunks or of the trailers completes the message; extensions and
   * trailers are refused when the flags say so.
   */
  function Step(env: Env, s: ReadState, ev: Event): (r: StepResult)
    ensures r.state.rflags == s.rflags
    ensures s.rdone ==> r.state.rdone
    ensures |s.http.body| <= |r.state.http.body| && r.state.http.body[..|s.http.body|] == s.http.body
    ensures ev.Start? ==>
      r == StartStep(env, s, ev.messageType, ev.version, ev.requestMethod, ev.uri, ev.code, ev.reason)
    ensures ev.Header? ==>
      r.err == Success && r.state.rdone == s.rdone &&
      Values(r.state.http.headers, ev.key) == Values(s.http.headers, ev.key) + [ev.value]
    ensures ev.HeaderDone? ==> r == HeaderDoneStep(env, s, ev.format)
    ensures ev.Body? ==> r == BodyStep(s, ev.data)
    ensures ev.ChunkData? ==>
      r.err == Success && r.state.http.body == s.http.body + ev.data && r.state.rdone == s.rdone
    ensures ev.BodyDone? || ev.ChunkFinished? || ev.TrailerDone? ==>
      r == StepResult(s.(rdone := true), Success)
    ensures ev.ChunkExtension? ==>
      r.state == s && (r.err == Success <==> !s.rflags.failExtension) &&
      (r.err != Success ==> r.err == ChunkExtensionNotAllowed)
    ensures ev.Trailer? ==>
      r.state == s && (r.err == Success <==> !s.rflags.failTrailers) &&
      (r.err != Success ==> r.err == TrailerNotAllowed)
  {
    match ev
    case Start(t, v, m, uri, code, reason) => StartStep(env, s, t, v, m, uri, code, reason)
    case Header(key, value) =>
      StepResult(s.(http := AppendHeader(env, s.http, key, value)), Success)
    case HeaderDone(format) => HeaderDoneStep(env, s, format)
    case Body(data) => BodyStep(s, data)
    case BodyDone => StepResult(s.(rdone := true), Success)
    case ChunkExtension(_, _, _) =>
      if s.rflags.failExtension then StepResult(s, ChunkExtensionNotAllowed) else StepResult(s, Success)
    case ChunkData(data, _) => StepResult(s.(http := s.http.(body := s.http.body + data)), Success)
    case ChunkFinished => StepResult(s.(rdone := true), Success)
    case Trailer(_, _) =>
      if s.rflags.failTrailers then StepResult(s, TrailerNotAllowed) else StepResult(s, Success)
    case TrailerDone => StepResult(s.(rdone := true), Success)
  }

  /** The start-line callback: request line or status line. */
  function StartStep(env: Env, s: ReadState, t: MessageType, v: Version, m: HttpMethod,
                     uri: string, code: U32, reason: string): (r: StepResult)
    ensures r.state.rflags == s.rflags && r.state.rdone == s.rdone && r.state.http.body == s.http.body
    ensures r.state.http.messageType == t && r.state.http.version == v
    ensures t == MessageTypeRequest ==>
      r.state.http.requestMethod == m &&
      (r.err == Success <==> env.uriAccepted(uri)) &&
      (r.err != Success ==> r.err == ErrUri) &&
      (r.err == Success ==> r.state.http.uri == uri)
    ensures t != MessageTypeRequest ==>
      r.err == Success && r.state.http.statusCode == code && r.state.http.reasonPhrase == reason
  {
    var h := s.http.(messageType := t, version := v);
    if t == MessageTypeRequest then
      var h := h.(requestMethod := m);
      if env.uriAccepted(uri) then StepResult(s.(http := h.(uri := uri)), Success)
      else StepResult(s.(http := h), ErrUri)
    else
      StepResult(s.(http := h.(statusCode := code, reasonPhrase := reason)), Success)
  }

  /** The end-of-headers callback: format check, then the Content-Length rules. */
  function HeaderDoneStep(env: Env, s: ReadState, format: DataFormat): (r: StepResult)
    ensures r.state.rflags == s.rflags && (s.rdone ==> r.state.rdone) && r.state.http.body == s.http.body
    ensures format == FormatMultipart || format == FormatUnknown ==> r == StepResult(s, UnsupportedData)
    ensures format != FormatMultipart && format != FormatUnknown ==>
      var clen := ContentLength(s.http.headers);
      (clen == "" && s.rflags.lenRequired ==> r == StepResult(s, LengthRequired)) &&
      (clen != "" && (env.parseInt64(clen).None? || env.parseInt64(clen).value < 0) ==>
         r == StepResult(s, ContentLengthMalformed)) &&
      (clen != "" && env.parseInt64(clen).Some? && env.parseInt64(clen).value >= 0 ==>
         r.err == Success && r.state.http.bodyLen == env.parseInt64(clen).value &&
         r.state.http.haveBodyLen && (r.state.rdone <==> s.rdone || env.parseInt64(clen).value == 0)) &&
      (clen == "" && !s.rflags.lenRequired ==> r == StepResult(s, Success))
  {
    if format == FormatMultipart || format == FormatUnknown then StepResult(s, UnsupportedData)
    else
      var clen := ContentLength(s.http.headers);
      if clen == "" && s.rflags.lenRequired then StepResult(s, LengthRequired)
      else if clen != "" then
        match env.parseInt64(clen)
        case None => StepResult(s, ContentLengthMalformed)
        case Some(n) =>
          if n < 0 then StepResult(s, ContentLengthMalformed)
          else StepResult(s.(rdone := s.rdone || n == 0,
                             http := s.http.(bodyLen := n, haveBodyLen := true)), Success)
      else StepResult(s, Success)
  }

  /** The body callback: append the data; without a known length the message is complete at once. */
  function BodyStep(s: ReadState, data: Bytes): (r: StepResult)
    ensures r.err == Success && r.state.rflags == s.rflags
    ensures r.state.http.body == s.http.body + data
    ensures r.state.rdone <==> s.rdone || !s.http.haveBodyLen
  {
    StepResult(s.(http := s.http.(body := s.http.body + data),
                  rdone := s.rdone || !s.http.haveBodyLen), Success)
  }

  /**
   * Delivering events in order: the first callback that fails stops the
   * reader and its code is the result; when all succeed, the result is the
   * reader's own verdict.
   */
  function Feed(env: Env, s: ReadState, events: seq<Event>, verdict: HttpError): StepResult
    decreases |events|
  {
    if events == [] then StepResult(s, verdict)
    else
      var r := Step(env, s, events[0]);
      if r.err != Success then r else Feed(env, r.state, events[1..], verdict)
  }

  /**
   * What holds across any run of callbacks: the flags never change, a
   * completed message stays complete, and the body only grows at its end.
   */
  lemma {:induction false} FeedPreserves(env: Env, s: ReadState, events: seq<Event>, verdict: HttpError)
    ensures Feed(env, s, events, verdict).state.rflags == s.rflags
    ensures s.rdone ==> Feed(env, s, events, verdict).state.rdone
    ensures |s.http.body| <= |Feed(env, s, events, verdict).state.http.body|
    ensures Feed(env, s, events, verdict).state.http.body[..|s.http.body|] == s.http.body
    decreases |events|
  {
    if events != [] {
      var r := Step(env, s, events[0]);
      if r.err == Success {
        FeedPreserves(env, r.state, events[1..], verdict);
        var b := Feed(env, r.state, events[1..], verdict).state.http.body;
        assert b[..|s.http.body|] == b[..|r.state.http.body|][..|s.http.body|];
      }
    }
  }

  /** A failing callback ends the run: nothing after it is delivered. */
  lemma FeedStopsAtFailure(env: Env, s: ReadState, events: seq<Event>, verdict: HttpError, k: nat)
    requires k < |events|
    requires Step(env, Feed(env, s, events[..k], Success).state, events[k]).err != Success
    requires Feed(env, s, events[..k], Success).err == Success
    ensures Feed(env, s, events, verdict) == Step(env, Feed(env, s, events[..k], Success).state, events[k])
    decreases k
  {
    if k > 0 {
      var r := Step(env, s, events[0]);
      assert events[..k][0] == events[0];
      assert events[..k][1..] == events[1..][..k - 1];
      FeedStopsAtFailure(env, r.state, events[1..], verdict, k - 1);
    }
  }

  /**
   * The decision structure of M_http_simple_read_decode_body: no decoding
   * when the flags forbid it or when there is neither a content type nor a
   * codec; a form-encoded body is percent-decoded and loses its content type;
   * a body in a codec other than UTF-8 is decoded to UTF-8; after a
   * decoding the Content-Length header is replaced by the new body length.
   * A decoding failure leaves the body already replaced.
   */
  function Decoded(env: Env, s: ReadState): (r: StepResult)
    ensures r.err == Success || r.err == TextcodecFailure
    ensures r.state.rflags == s.rflags && r.state.rdone == s.rdone
    ensures s.rflags.nodecodeBody ==> r == StepResult(s, Success)
    ensures s.http.contentType == "" && s.http.codec == CodecUnknown ==> r == StepResult(s, Success)
    ensures r.err == Success && r.state.http.body != s.http.body ==>
      Get(r.state.http.headers, ContentLengthKey) == [DecimalString(|r.state.http.body|)]
    ensures r.err == Success && !s.rflags.nodecodeBody ==>
      r.state.http.codec == CodecUnknown || r.state.http.codec == CodecUtf8
    ensures r.err == Success && !s.rflags.nodecodeBody && CaseEq(s.http.contentType, FormUrlencoded) ==>
      r.state.http.contentType == ""
  {
    if s.rflags.nodecodeBody then StepResult(s, Success)
    else if s.http.contentType == "" && s.http.codec == CodecUnknown then StepResult(s, Success)
    else
      var form := CaseEq(s.http.contentType, FormUrlencoded);
      var d1 := if form then env.decode(PercentForm, s.http.body) else Decoding(s.http.body, true);
      var h1 := if form then s.http.(body := d1.out, contentType := "") else s.http;
      if !d1.ok then StepResult(s.(http := s.http.(body := d1.out)), TextcodecFailure)
      else
        var recode := h1.codec != CodecUnknown && h1.codec != CodecUtf8;
        var d2 := if recode then env.decode(FromCodec(h1.codec), h1.body) else Decoding(h1.body, true);
        if !d2.ok then StepResult(s.(http := h1.(body := d2.out)), TextcodecFailure)
        else
          var h2 := if recode then h1.(body := d2.out, codec := CodecUtf8, charset := "utf-8") else h1;
          if form || recode then
            var h3 := h2.(headers := h2.headers[ContentLengthKey := [DecimalString(|h2.body|)]]);
            StepResult(s.(http := h3), Success)
          else StepResult(s.(http := h2), Success)
  }

  /** M_http_simple_read_t */
  class SimpleRead {
    var http: Http
    var rflags: ReadFlags
    var rdone: bool

    function State(): ReadState
      reads this
    {
      ReadState(http, rflags, rdone)
    }

    /** M_http_simple_read_create */
    constructor (flags: ReadFlags)
      ensures State() == ReadState(EmptyHttp, flags, false)
    {
      http := EmptyHttp;
      rflags := flags;
      rdone := false;
    }

    /** M_http_simple_read_start_cb */
    method StartCb(env: Env, t: MessageType, v: Version, m: HttpMethod, uri: string, code: U32, reason: string)
      returns (res: HttpError)
      modifies this
      ensures StepResult(State(), res) == Step(env, old(State()), Start(t, v, m, uri, code, reason))
    {
      res := Success;
      http := http.(messageType := t);
      http := http.(version := v);
      if t == MessageTypeRequest {
        http := http.(requestMethod := m);
        if env.uriAccepted(uri) {
          http := http.(uri := uri);
        } else {
          res := ErrUri;
        }
      } else {
        http := http.(statusCode := code);
        http := http.(reasonPhrase := reason);
      }
    }

    /** M_http_simple_read_header_cb */
    method HeaderCb(env: Env, key: string, value: string) returns (res: HttpError)
      modifies this
      ensures StepResult(State(), res) == Step(env, old(State()), Header(key, value))
    {
      http := AppendHeader(env, http, key, value);
      res := Success;
    }

    /** M_http_simple_read_header_done_cb */
    method HeaderDoneCb(env: Env, format: DataFormat) returns (res: HttpError)
      modifies this
      ensures StepResult(State(), res) == Step(env, old(State()), HeaderDone(format))
    {
      if format == FormatMultipart || format == FormatUnknown {
        return UnsupportedData;
      }
      var val := ContentLength(http.headers);
      if val == "" && rflags.lenRequired {
        return LengthRequired;
      } else if val != "" {
        var parsed := env.parseInt64(val);
        if parsed.None? || parsed.value < 0 {
          return ContentLengthMalformed;
        }
        if parsed.value == 0 {
          rdone := true;
        }
        http := http.(bodyLen := parsed.value, haveBodyLen := true);
      }
      res := Success;
    }

    /** M_http_simple_read_body_cb */
    method BodyCb(env: Env, data: Bytes) returns (res: HttpError)
      modifies this
      ensures StepResult(State(), res) == Step(env, old(State()), Body(data))
    {
      http := http.(body := http.body + data);
      if !http.haveBodyLen {
        rdone := true;
      }
      res := Success;
    }

    /** M_http_simple_read_body_done_cb */
    method BodyDoneCb(env: Env) returns (res: HttpError)
      modifies this
      ensures StepResult(State(), res) == Step(env, old(State()), BodyDone)
    {
      rdone := true;
      res := Success;
    }

    /** M_http_simple_read_chunk_extensions_cb */
    method ChunkExtensionCb(env: Env, key: string, value: string, idx: nat) returns (res: HttpError)
      modifies this
      ensures StepResult(State(), res) == Step(env, old(State()), ChunkExtension(key, value, idx))
    {
      if rflags.failExtension {
        return ChunkExtensionNotAllowed;
      }
      res := Success;
    }

    /** M_http_simple_read_chunk_data_cb */
    method ChunkDataCb(env: Env, data: Bytes, idx: nat) returns (res: HttpError)
      modifies this
      ensures StepResult(State(), res) == Step(env, old(State()), ChunkData(data, idx))
    {
      http := http.(body := http.body + data);
      res := Success;
    }

    /** M_http_simple_read_chunk_data_finished_cb */
    method ChunkFinishedCb(env: Env) returns (res: HttpError)
      modifies this
      ensures StepResult(State(), res) == Step(env, old(State()), ChunkFinished)
    {
      rdone := true;
      res := Success;
    }

    /** M_http_simple_read_trailer_cb */
    method TrailerCb(env: Env, key: string, value: string) returns (res: HttpError)
      modifies this
      ensures StepResult(State(), res) == Step(env, old(State()), Trailer(key, value))
    {
      if rflags.failTrailers {
        return TrailerNotAllowed;
      }
      res := Success;
    }

    /** M_http_simple_read_trailer_done_cb */
    method TrailerDoneCb(env: Env) returns (res: HttpError)
      modifies this
      ensures StepResult(State(), res) == Step(env, old(State()), TrailerDone)
    {
      rdone := true;
      res := Success;
    }

    /** The callback table: the event goes to the callback registered for it. */
    method Deliver(env: Env, ev: Event) returns (res: HttpError)
      modifies this
      ensures StepResult(State(), res) == Step(env, old(State()), ev)
    {
      match ev {
        case Start(t, v, m, uri, code, reason) => res := StartCb(env, t, v, m, uri, code, reason);
        case Header(key, value) => res := HeaderCb(env, key, value);
        case HeaderDone(format) => res := HeaderDoneCb(env, format);
        case Body(data) => res := BodyCb(env, data);
        case BodyDone => res := BodyDoneCb(env);
        case ChunkExtension(key, value, idx) => res := ChunkExtensionCb(env, key, value, idx);
        case ChunkData(data, idx) => res := ChunkDataCb(env, data, idx);
        case ChunkFinished => res := ChunkFinishedCb(env);
        case Trailer(key, value) => res := TrailerCb(env, key, value);
        case TrailerDone => res := TrailerDoneCb(env);
      }
    }

    /** The reader's run over this object: events in order until a callback fails. */
    method RunReader(env: Env, run: ReaderRun) returns (res: HttpError)
      modifies this
      ensures StepResult(State(), res) == Feed(env, old(State()), run.events, run.verdict)
    {
      var i := 0;
      while i < |run.events|
        invariant 0 <= i <= |run.events|
        invariant Feed(env, old(State()), run.events, run.verdict) == Feed(env, State(), run.events[i..], run.verdict)
        decreases |run.events| - i
      {
        assert run.events[i..][1..] == run.events[i + 1..];
        var r := Deliver(env, run.events[i]);
        if r != Success {
          return r;
        }
        i := i + 1;
      }
      res := run.verdict;
    }
  }

  /** M_http_simple_read_decode_body, including its guard against a missing object. */
  method DecodeBody(env: Env, simple: SimpleRead?) returns (res: HttpError)
    modifies simple
    ensures simple == null ==> res == InvalidUse
    ensures simple != null ==> StepResult(simple.State(), res) == Decoded(env, old(simple.State()))
  {
    if simple == null {
      return InvalidUse;
    }
    if simple.rflags.nodecodeBody {
      return Success;
    }
    var h := simple.http;
    if h.contentType == "" && h.codec == CodecUnknown {
      return Success;
    }
    var updateClen := false;
    if CaseEq(h.contentType, FormUrlencoded) {
      var d := env.decode(PercentForm, h.body);
      h := h.(body := d.out);
      if !d.ok {
        simple.http := h;
        return TextcodecFailure;
      }
      h := h.(contentType := "");
      updateClen := true;
    }
    if h.codec != CodecUnknown && h.codec != CodecUtf8 {
      var d := env.decode(FromCodec(h.codec), h.body);
      h := h.(body := d.out);
      if !d.ok {
        simple.http := h;
        return TextcodecFailure;
      }
      h := h.(codec := CodecUtf8, charset := "utf-8");
      updateClen := true;
    }
    if updateClen {
      var clen := [DecimalString(|h.body|)];
      var removed := h.headers - {ContentLengthKey};
      RemoveThenInsert(h.headers, ContentLengthKey, clen);
      h := h.(headers := removed[ContentLengthKey := clen]);
    }
    simple.http := h;
    res := Success;
  }

  /** Removing a key and inserting it again is the same as overwriting it. */
  lemma RemoveThenInsert(m: Headers, k: string, v: seq<string>)
    ensures (m - {k})[k := v] == m[k := v]
  {
  }

  // ---------------------------------------------------------------------
  // The top-level read

  /** What the caller learns from M_http_simple_read, and the message it keeps on success. */
  datatype ReadOutcome = ReadOutcome(res: HttpError, lenRead: nat, message: Option<ReadState>)

  /**
   * M_http_simple_read as a function of its input: empty input asks for more
   * data; a reader success that has not completed the message also asks for
   * more data and reports nothing read; any other failure is passed on; a
   * complete message is decoded, and a decoding failure is the result.
   */
  function ReadResult(env: Env, data: Bytes, flags: ReadFlags): (r: ReadOutcome)
    ensures data == [] ==> r == ReadOutcome(MoreData, 0, None)
    ensures r.res == Success <==> r.message.Some?
    ensures r.message.Some? ==> r.message.value.rdone && r.message.value.rflags == flags
    ensures data != [] ==>
      var run := env.reader(data);
      var fed := Feed(env, ReadState(EmptyHttp, flags, false), run.events, run.verdict);
      (fed.err == Success && !fed.state.rdone ==> r == ReadOutcome(MoreData, 0, None)) &&
      (fed.err != Success ==> r == ReadOutcome(fed.err, run.lenRead, None)) &&
      (fed.err == Success && fed.state.rdone ==>
         r.lenRead == run.lenRead && r.res == Decoded(env, fed.state).err &&
         (r.res == Success ==> r.message == Some(Decoded(env, fed.state).state)))
  {
    if data == [] then ReadOutcome(MoreData, 0, None)
    else
      var run := env.reader(data);
      var s0 := ReadState(EmptyHttp, flags, false);
      var fed := Feed(env, s0, run.events, run.verdict);
      FeedPreserves(env, s0, run.events, run.verdict);
      if fed.err == Success && !fed.state.rdone then ReadOutcome(MoreData, 0, None)
      else if fed.err != Success then ReadOutcome(fed.err, run.lenRead, None)
      else
        var d := Decoded(env, fed.state);
        if d.err != Success then ReadOutcome(d.err, run.lenRead, None)
        else ReadOutcome(Success, run.lenRead, Some(d.state))
  }

  /** A value of `*simple` or of the local `sr`: NULL, never assigned, or an object. */
  datatype Handle = NullHandle | Unassigned | Obj(sr: SimpleRead)

  /** The caller's `M_http_simple_read_t *` that `simple` points to. */
  class HandleCell {
    var ptr: Handle

    constructor (p: Handle)
      ensures ptr == p
    {
      ptr := p;
    }
  }

  /** The handles passed to M_http_simple_read_destroy (destroying NULL does nothing) and the handle afterwards. */
  datatype Cleanup = Cleanup(destroyed: seq<Handle>, after: Handle)

  /**
   * The `done:` block of M_http_simple_read: on failure, or when the caller
   * did not ask for the object, the handle is destroyed, and the caller's
   * handle is cleared.
   */
  function DoneBlock(res: HttpError, haveSimple: bool, h: Handle): (r: Cleanup)
    ensures res == Success && haveSimple ==> r == Cleanup([], h)
    ensures res != Success && haveSimple ==> r.after == NullHandle
    ensures res != Success || !haveSimple ==> r.destroyed == (if h == NullHandle then [] else [h])
  {
    if res != Success || !haveSimple then
      Cleanup(if h == NullHandle then [] else [h], if haveSimple then NullHandle else h)
    else Cleanup([], h)
  }

  /**
   * Empty input as written: the jump to `done:` happens before the handle is
   * assigned, so the block destroys the uninitialised `sr`, or whatever the
   * caller's pointer held.
   */
  function EmptyInputAsWritten(haveSimple: bool, callerPtr: Handle): (r: Cleanup)
    ensures haveSimple ==> r.after == NullHandle
  {
    DoneBlock(MoreData, haveSimple, if haveSimple then callerPtr else Unassigned)
  }

  /** Without a caller handle, empty input destroys a pointer that was never assigned. */
  lemma EmptyInputDestroysUnassigned()
    ensures EmptyInputAsWritten(false, NullHandle).destroyed == [Unassigned]
  {
  }

  /** With a caller handle, empty input destroys the object the caller held before the call. */
  lemma EmptyInputDestroysCallerObject(earlier: SimpleRead)
    ensures EmptyInputAsWritten(true, Obj(earlier)).destroyed == [Obj(earlier)]
  {
  }

  /** Empty input with the handle cleared first: nothing is destroyed and the caller's handle is NULL. */
  function EmptyInput(haveSimple: bool): (r: Cleanup)
    ensures r.destroyed == []
    ensures haveSimple ==> r.after == NullHandle
  {
    DoneBlock(MoreData, haveSimple, NullHandle)
  }

  /**
   * M_http_simple_read with `simple` the caller's cell (null when the caller
   * passed NULL), empty input clearing the handle before cleanup.  The result
   * and the count of bytes read are those of `ReadResult`; the caller keeps
   * the new object exactly on success; every other object is destroyed
   * exactly once.
   */
  method Read(env: Env, cell: HandleCell?, data: Bytes, flags: ReadFlags)
    returns (res: HttpError, lenRead: nat, destroyed: seq<Handle>)
    modifies cell
    ensures res == ReadResult(env, data, flags).res && lenRead == ReadResult(env, data, flags).lenRead
    ensures data == [] ==> destroyed == []
    ensures cell != null && res == Success ==>
      destroyed == [] && cell.ptr.Obj? && fresh(cell.ptr.sr) &&
      cell.ptr.sr.State() == ReadResult(env, data, flags).message.value
    ensures cell != null && res != Success ==> cell.ptr == NullHandle
    ensures data != [] && (cell == null || res != Success) ==>
      |destroyed| == 1 && destroyed[0].Obj? && fresh(destroyed[0].sr)
  {
    var haveSimple := cell != null;
    var h: Handle;
    lenRead := 0;
    if data == [] {
      res := MoreData;
      var c := EmptyInput(haveSimple);
      destroyed := c.destroyed;
      if haveSimple {
        cell.ptr := c.after;
      }
      return;
    }
    var sr := new SimpleRead(flags);
    h := Obj(sr);
    if haveSimple {
      cell.ptr := h;
    }
    var run := env.reader(data);
    res := sr.RunReader(env, run);
    lenRead := run.lenRead;
    ghost var fed := sr.State();
    FeedPreserves(env, ReadState(EmptyHttp, flags, false), run.events, run.verdict);
    if res == Success && !sr.rdone {
      res := MoreData;
      lenRead := 0;
    }
    destroyed := [];
    if res == Success {
      res := DecodeBody(env, sr);
      if res != Success {
        destroyed := [h];
        h := NullHandle;
      }
    }
    var c := DoneBlock(res, haveSimple, h);
    destroyed := destroyed + c.destroyed;
    if haveSimple {
      cell.ptr := c.after;
    }
  }

  /** An M_parser_t holding bytes not yet consumed. */
  class Parser {
    var buf: Bytes

    constructor (b: Bytes)
      ensures buf == b
    {
      buf := b;
    }
  }

  /** M_parser_consume: drop the first `n` bytes; a count beyond the data is refused. */
  function Consumed(buf: Bytes, n: nat): (r: Bytes)
    ensures n <= |buf| ==> |r| == |buf| - n && buf == buf[..n] + r
    ensures n > |buf| ==> r == buf
  {
    if n <= |buf| then buf[n..] else buf
  }

  /**
   * M_http_simple_read_parser: read from the parser's data, hand the message
   * back through `*simple` as M_http_simple_read does, then consume exactly
   * the bytes reported read.
   */
  method ReadParser(env: Env, cell: HandleCell?, parser: Parser, flags: ReadFlags)
    returns (res: HttpError, destroyed: seq<Handle>)
    modifies cell, parser
    ensures res == ReadResult(env, old(parser.buf), flags).res
    ensures parser.buf == Consumed(old(parser.buf), ReadResult(env, old(parser.buf), flags).lenRead)
    ensures old(parser.buf) == [] ==> destroyed == []
    ensures cell != null && res == Success ==>
      destroyed == [] && cell.ptr.Obj? && fresh(cell.ptr.sr) &&
      cell.ptr.sr.State() == ReadResult(env, old(parser.buf), flags).message.value
    ensures cell != null && res != Success ==> cell.ptr == NullHandle
    ensures old(parser.buf) != [] && (cell == null || res != Success) ==>
      |destroyed| == 1 && destroyed[0].Obj? && fresh(destroyed[0].sr)
  {
    var lenRead: nat;
    res, lenRead, destroyed := Read(env, cell, parser.buf, flags);
    parser.buf := Consumed(parser.buf, lenRead);
  }

  /**
   * When the reader accepts the data but the message is not complete yet,
   * the read asks for more and nothing is consumed from the parser.
   */
  lemma IncompleteConsumesNothing(env: Env, buf: Bytes, flags: ReadFlags)
    requires buf != []
    requires var run := env.reader(buf);
      Feed(env, ReadState(EmptyHttp, flags, false), run.events, run.verdict).err == Success &&
      !Feed(env, ReadState(EmptyHttp, flags, false), run.events, run.verdict).state.rdone
    ensures ReadResult(env, buf, flags).res == MoreData
    ensures Consumed(buf, ReadResult(env, buf, flags).lenRead) == buf
  {
  }

  /**
   * When the reader itself (or a callback) stops with an error, MOREDATA
   * included, that code is the result and the bytes the reader reports are
   * consumed from the parser.
   */
  lemma ReaderErrorConsumesReported(env: Env, buf: Bytes, flags: ReadFlags)
    requires buf != []
    requires var run := env.reader(buf);
      Feed(env, ReadState(EmptyHttp, flags, false), run.events, run.verdict).err != Success
    ensures var run := env.reader(buf);
      ReadResult(env, buf, flags).res == Feed(env, ReadState(EmptyHttp, flags, false), run.events, run.verdict).err &&
      Consumed(buf, ReadResult(env, buf, flags).lenRead) == Consumed(buf, run.lenRead)
  {
  }

  // ---------------------------------------------------------------------
  // Null-guarded accessors

  /** M_http_simple_read_message_type */
  function MessageTypeOf(simple: SimpleRead?): (r: MessageType)
    reads simple
    ensures simple == null ==> r == MessageTypeUnknown
    ensures simple != null ==> r == simple.http.messageType
  {
    if simple == null then MessageTypeUnknown else simple.http.messageType
  }

  /** M_http_simple_read_version */
  function VersionOf(simple: SimpleRead?): (r: Version)
    reads simple
    ensures simple == null ==> r == VersionUnknown
    ensures simple != null ==> r == simple.http.version
  {
    if simple == null then VersionUnknown else simple.http.version
  }

  /** M_http_simple_read_status_code */
  function StatusCodeOf(simple: SimpleRead?): (r: U32)
    reads simple
    ensures simple == null ==> r == 0
    ensures simple != null ==> r == simple.http.statusCode
  {
    if simple == null then 0 else simple.http.statusCode
  }

  /** M_http_simple_read_reason_phrase */
  function ReasonPhraseOf(simple: SimpleRead?): (r: Option<string>)
    reads simple
    ensures simple == null ==> r == None
    ensures simple != null ==> r == Some(simple.http.reasonPhrase)
  {
    if simple == null then None else Some(simple.http.reasonPhrase)
  }

  /** M_http_simple_read_method */
  function MethodOf(simple: SimpleRead?): (r: HttpMethod)
    reads simple
    ensures simple == null ==> r == MethodUnknown
    ensures simple != null ==> r == simple.http.requestMethod
  {
    if simple == null then MethodUnknown else simple.http.requestMethod
  }

  /** M_http_simple_read_uri */
  function UriOf(simple: SimpleRead?): (r: Option<string>)
    reads simple
    ensures simple == null ==> r == None
    ensures simple != null ==> r == Some(simple.http.uri)
  {
    if simple == null then None else Some(simple.http.uri)
  }

  /** M_http_simple_read_headers_dict */
  function HeadersDictOf(simple: SimpleRead?): (r: Option<Headers>)
    reads simple
    ensures simple == null ==> r == None
    ensures simple != null ==> r == Some(simple.http.headers)
  {
    if simple == null then None else Some(simple.http.headers)
  }

  /** M_http_simple_read_header: a header's values joined, nothing for a missing object or header. */
  function HeaderOf(simple: SimpleRead?, key: string): (r: Option<string>)
    reads simple
    ensures simple == null ==> r == None
    ensures simple != null ==> (r.None? <==> Values(simple.http.headers, key) == [])
    ensures simple != null && r.Some? ==> r.value == Join(Values(simple.http.headers, key), ", ")
  {
    if simple == null then None else HeaderText(simple.http.headers, key)
  }

  /** M_http_simple_read_body: the body and its length; no body and length 0 for a missing object. */
  function BodyOf(simple: SimpleRead?): (r: (Option<Bytes>, nat))
    reads simple
    ensures simple == null ==> r == (None, 0)
    ensures simple != null ==> r.0 == Some(simple.http.body) && r.1 == |simple.http.body|
  {
    if simple == null then (None, 0) else (Some(simple.http.body), |simple.http.body|)
  }

  /** M_http_simple_read_content_type */
  function ContentTypeOf(simple: SimpleRead?): (r: Option<string>)
    reads simple
    ensures simple == null ==> r == None
    ensures simple != null ==> r == Some(simple.http.contentType)
  {
    if simple == null then None else Some(simple.http.contentType)
  }

  /** M_http_simple_read_codec */
  function CodecOf(simple: SimpleRead?): (r: Codec)
    reads simple
    ensures simple == null ==> r == CodecUnknown
    ensures simple != null ==> r == simple.http.codec
  {
    if simple == null then CodecUnknown else simple.http.codec
  }

  /** M_http_simple_read_charset */
  function CharsetOf(simple: SimpleRead?): (r: Option<string>)
    reads simple
    ensures simple == null ==> r == None
    ensures simple != null ==> r == Some(simple.http.charset)
  {
    if simple == null then None else Some(simple.http.charset)
  }
}

/**
 One frame of an SMB session: parse each message, let related operations inherit from those before
 them, dispatch, answer, and chain the answers.

 The request handlers are a function of the session and the request; `None` is an exception.
 */
module SmbServer {
  import opened Bytes
  import opened SmbCompound
  import opened Wrappers

  type Bytes2 = s: seq<byte> | |s| == 2 witness Zeros(2)
  type Bytes8 = s: seq<byte> | |s| == 8 witness Zeros(8)
  type Bytes16 = s: seq<byte> | |s| == 16 witness Zeros(16)

  const SMB1_MAGIC: seq<byte> := [0xFF, 0x53, 0x4D, 0x42]
  const SMB2_MAGIC: seq<byte> := [0xFE, 0x53, 0x4D, 0x42]
  const CREATE: Bytes2 := [5, 0]
  const STATUS_SUCCESS: uint32 := 0
  const STATUS_UNSUCCESSFUL: uint32 := 0xC000_0001

  /** The fields of the header of section 2.2.1.2 of [MS-SMB2] that the server uses. */
  datatype Header = Header(creditCharge: Bytes2, status: uint32, command: Bytes2, flags: uint32, nextCommand: uint32,
                           messageId: Bytes8, treeId: uint32, sessionId: Bytes8)

  datatype Request = Request(header: Header, payload: seq<byte>)

  function ParseHeader(data: seq<byte>): (r: Option<Header>)
    ensures r.Some? ==> |data| >= SMB2_HEADER_SIZE
  {
    if |data| < SMB2_HEADER_SIZE || data[..4] != SMB2_MAGIC then None
    else Some(Header(data[6..8], ReadLE32(data, 8), data[12..14], ReadLE32(data, 16), ReadLE32(data, 20),
                     data[24..32], ReadLE32(data, 36), data[40..48]))
  }

  predicate IsRelated(flags: uint32) {
    flags / 4 % 2 == 1
  }

  /** Bit 0x00000004 of the four bytes at offset 16. */
  predicate RelatedOnTheWire(message: seq<byte>)
    requires |message| >= SMB2_HEADER_SIZE
  {
    message[16] / 4 % 2 == 1
  }

  lemma RelatedIsWireBit(message: seq<byte>)
    requires ParseHeader(message).Some?
    ensures IsRelated(ParseHeader(message).value.flags) <==> RelatedOnTheWire(message)
  {
    var low: int, rest: int := message[16], message[17] + message[18] as int * 0x100 + message[19] as int * 0x1_0000;
    assert ReadLE32(message, 16) == low + rest * 0x100;
  }

  type Bytes4 = s: seq<byte> | |s| == 4 witness Zeros(4)

  /** A client's header, field by field as section 2.2.1.2 of [MS-SMB2] lays it out. */
  function RequestHeader(h: Header, credits: Bytes2, reserved: Bytes4, signature: Bytes16): (header: seq<byte>)
    ensures |header| == SMB2_HEADER_SIZE
  {
    SMB2_MAGIC + [64, 0] + h.creditCharge + LE32(h.status) + h.command + credits
    + LE32(h.flags) + LE32(h.nextCommand) + h.messageId + reserved + LE32(h.treeId) + h.sessionId + signature
  }

  lemma ReadLE32At(s: seq<byte>, at: nat, n: uint32)
    requires at + 4 <= |s| && s[at..at + 4] == LE32(n)
    ensures ReadLE32(s, at) == n
  {
    LE32RoundTrip(n);
    hide LE32;
    var bytes := s[at..at + 4];
    assert s[at] == bytes[0] && s[at + 1] == bytes[1] && s[at + 2] == bytes[2] && s[at + 3] == bytes[3];
  }

  /** Every field is read from where the client put it. */
  lemma ParsedAsSent(h: Header, credits: Bytes2, reserved: Bytes4, signature: Bytes16, payload: seq<byte>)
    ensures ParseHeader(RequestHeader(h, credits, reserved, signature) + payload) == Some(h)
  {
    hide LE32, ReadLE32;
    var data := RequestHeader(h, credits, reserved, signature) + payload;
    assert data[..4] == SMB2_MAGIC && data[6..8] == h.creditCharge && data[12..14] == h.command;
    assert data[24..32] == h.messageId && data[40..48] == h.sessionId;
    assert data[8..12] == LE32(h.status) && data[16..20] == LE32(h.flags);
    assert data[20..24] == LE32(h.nextCommand) && data[36..40] == LE32(h.treeId);
    ReadLE32At(data, 8, h.status);
    ReadLE32At(data, 16, h.flags);
    ReadLE32At(data, 20, h.nextCommand);
    ReadLE32At(data, 36, h.treeId);
  }

  function BuildResponseHeader(req: Header, status: uint32): (header: seq<byte>)
    ensures |header| == SMB2_HEADER_SIZE
  {
    First16(req, status) + Second16(req) + Third16(req) + Zeros(16)
  }

  /** Magic, StructureSize, CreditCharge, Status, Command, CreditResponse. */
  function First16(req: Header, status: uint32): (s: seq<byte>)
    ensures |s| == 16 && s[..4] == SMB2_MAGIC && ReadLE32(s, 8) == status && s[12..14] == req.command
  {
    LE32RoundTrip(status);
    SMB2_MAGIC + [64, 0] + (if req.creditCharge == [0, 0] then [1, 0] else req.creditCharge)
    + LE32(status) + req.command + [0, 1]
  }

  /** Flags, NextCommand, MessageId. */
  function Second16(req: Header): (s: seq<byte>)
    ensures |s| == 16 && ReadLE32(s, 4) == 0 && s[8..16] == req.messageId
  {
    LE32(if IsRelated(req.flags) then 5 else 1) + LE32(0) + req.messageId
  }

  /** Reserved, TreeId, SessionId. */
  function Third16(req: Header): (s: seq<byte>)
    ensures |s| == 16 && ReadLE32(s, 4) == req.treeId && s[8..16] == req.sessionId
  {
    LE32RoundTrip(req.treeId);
    LE32(0) + LE32(req.treeId) + req.sessionId
  }

  function BuildErrorResponse(req: Header, status: uint32): (response: Message)
  {
    BuildResponseHeader(req, status) + [9, 0, 0, 0] + LE32(0)
  }

  /** The response belongs to the request: same message id, same command, nothing chained yet. */
  predicate Answers(response: seq<byte>, req: Header) {
    && |response| >= SMB2_HEADER_SIZE
    && response[24..32] == req.messageId && response[12..14] == req.command
    && NextCommand(response) == 0
  }

  /** What a client parses from the header is the request's identity and the status. */
  lemma HeaderRoundTrip(req: Header, status: uint32, body: seq<byte>)
    ensures var r := ParseHeader(BuildResponseHeader(req, status) + body);
            && r.Some?
            && r.value.messageId == req.messageId && r.value.command == req.command
            && r.value.treeId == req.treeId && r.value.sessionId == req.sessionId
            && r.value.status == status && r.value.nextCommand == 0
    ensures Answers(BuildResponseHeader(req, status) + body, req)
  {
    var a, b, c := First16(req, status), Second16(req), Third16(req);
    hide First16, Second16, Third16;
    var whole := BuildResponseHeader(req, status) + body;
    assert whole[..16] == a && whole[16..32] == b && whole[32..48] == c;
    assert whole[..4] == a[..4] && whole[12..14] == a[12..14];
    assert whole[24..32] == b[8..16] && whole[40..48] == c[8..16];
    assert ReadLE32(whole, 8) == ReadLE32(a, 8) && ReadLE32(whole, 20) == ReadLE32(b, 4);
    assert ReadLE32(whole, 36) == ReadLE32(c, 4);
  }

  /** The bytes around those fields: magic, structure size, credits, flags with the related bit handed back, zeros. */
  lemma ResponseBytes(req: Header, status: uint32, body: seq<byte>)
    ensures var whole := BuildResponseHeader(req, status) + body;
            && whole[..6] == [0xFE, 0x53, 0x4D, 0x42, 64, 0]
            && whole[6..8] == (if req.creditCharge == [0, 0] then [1, 0] else req.creditCharge)
            && whole[14..16] == [0, 1]
            && whole[16..24] == [if req.flags / 4 % 2 == 1 then 5 else 1, 0, 0, 0, 0, 0, 0, 0]
            && whole[32..36] == Zeros(4) && whole[48..64] == Zeros(16)
  {
    var a, b, c := First16(req, status), Second16(req), Third16(req);
    var whole := BuildResponseHeader(req, status) + body;
    assert whole[..16] == a && whole[16..32] == b && whole[32..48] == c && whole[48..64] == Zeros(16);
    assert a[..6] == whole[..6] && a[6..8] == whole[6..8] && a[14..16] == whole[14..16];
    assert b[..8] == whole[16..24] && c[..4] == whole[32..36];
  }

  // ---------------------------------------------------------------------------------------------
  // CREATE responses
  // ---------------------------------------------------------------------------------------------

  type Bytes48 = s: seq<byte> | |s| == 48 witness Zeros(48)

  /** The 88-byte body puts the FileId at offset 64; `times` are the four time stamps and two sizes. */
  function CreateResponse(req: Header, action: uint32, times: Bytes48, attributes: uint32, fileId: Bytes16)
    : (r: Message)
  {
    BuildResponseHeader(req, STATUS_SUCCESS)
    + ([89, 0, 0, 0] + LE32(action) + times + LE32(attributes) + LE32(0) + fileId + LE32(0) + LE32(0))
  }

  /** The answer to a CREATE from which the chain's file id is taken. */
  predicate IsCreated(command: Bytes2, response: Message): (r: bool)
    ensures r ==> |response| >= 64 + 82
  {
    command == CREATE && |response| >= 64 + 82 && ReadLE32(response, 8) == STATUS_SUCCESS
  }

  function CreatedFileId(response: Message): Bytes16
    requires |response| >= 64 + 82
  {
    response[64 + 64..64 + 80]
  }

  /** Where the chain looks for the file id is where the CREATE response has it. */
  lemma CreateResponseCarriesFileId(req: Header, action: uint32, times: Bytes48, attributes: uint32, fileId: Bytes16)
    requires req.command == CREATE
    ensures var r := CreateResponse(req, action, times, attributes, fileId);
            Answers(r, req) && IsCreated(req.command, r) && CreatedFileId(r) == fileId
  {
    var front := [89, 0, 0, 0] + LE32(action) + times + LE32(attributes) + LE32(0);
    var body := front + fileId + LE32(0) + LE32(0);
    HeaderRoundTrip(req, STATUS_SUCCESS, body);
    var header := BuildResponseHeader(req, STATUS_SUCCESS);
    hide BuildResponseHeader, LE32;
    var r := CreateResponse(req, action, times, attributes, fileId);
    assert r == header + body;
    assert r[64 + 64..64 + 80] == body[64..80] == fileId;
  }

  // ---------------------------------------------------------------------------------------------
  // Related operations
  // ---------------------------------------------------------------------------------------------

  const SENTINEL: Bytes16 := [0xFF, 0xFF, 0xFF, 0xFF, 0xFF, 0xFF, 0xFF, 0xFF,
                              0xFF, 0xFF, 0xFF, 0xFF, 0xFF, 0xFF, 0xFF, 0xFF]

  predicate IsSentinelAt(payload: seq<byte>, at: nat) {
    at + 16 <= |payload| && payload[at..at + 16] == SENTINEL
  }

  /** `payload.find(sentinel, from)` */
  function FindSentinel(payload: seq<byte>, from: nat): (r: Option<nat>)
    ensures r.Some? ==> from <= r.value && IsSentinelAt(payload, r.value)
    ensures r.Some? ==> forall i :: from <= i < r.value ==> !IsSentinelAt(payload, i)
    ensures r.None? ==> forall i :: from <= i ==> !IsSentinelAt(payload, i)
    decreases |payload| - from
  {
    if from + 16 > |payload| then None
    else if payload[from..from + 16] == SENTINEL then Some(from)
    else FindSentinel(payload, from + 1)
  }

  function Inherit(req: Request, lastFileId: Bytes16, lastTreeId: uint32): Request {
    if !IsRelated(req.header.flags) then req
    else
      var header := if req.header.treeId == 0 then req.header.(treeId := lastTreeId) else req.header;
      match FindSentinel(req.payload, 0)
      case None => Request(header, req.payload)
      case Some(at) => Request(header, req.payload[..at] + lastFileId + req.payload[at + 16..])
  }

  // ---------------------------------------------------------------------------------------------
  // The frame
  // ---------------------------------------------------------------------------------------------

  type Handler<!S> = (S, Request) -> (S, Option<Message>)

  /** Every handler answers with a header built from its request's, and so do the error answers. */
  ghost predicate Sound<S(!new)>(handler: Handler<S>) {
    forall s, req :: handler(s, req).1.Some? ==> Answers(handler(s, req).1.value, req.header)
  }

  /** One message served: the request as dispatched, the answer, and whether the handler gave it. */
  datatype Exchange = Exchange(req: Request, response: Message, handled: bool)

  function LastFileId(trace: seq<Exchange>): Bytes16 {
    if trace == [] then Zeros(16)
    else
      var last := trace[|trace| - 1];
      if last.handled && IsCreated(last.req.header.command, last.response) then CreatedFileId(last.response)
      else LastFileId(trace[..|trace| - 1])
  }

  function LastTreeId(trace: seq<Exchange>): uint32 {
    if trace == [] then 0
    else if trace[|trace| - 1].handled then ReadLE32(trace[|trace| - 1].response, 36)
    else LastTreeId(trace[..|trace| - 1])
  }

  /** The exchange that a message leads to, after those in `trace`; `None` if its header does not parse. */
  function Exchanged<S>(handler: Handler<S>, session: S, message: seq<byte>, trace: seq<Exchange>)
    : (S, Option<Exchange>)
  {
    match ParseHeader(message)
    case None => (session, None)
    case Some(header) =>
      var req := Inherit(Request(header, message[SMB2_HEADER_SIZE..]), LastFileId(trace), LastTreeId(trace));
      var answer := handler(session, req);
      (answer.0, Some(if answer.1.Some? then Exchange(req, answer.1.value, true)
                      else Exchange(req, BuildErrorResponse(header, STATUS_UNSUCCESSFUL), false)))
  }

  function Responses(trace: seq<Exchange>): (responses: seq<Message>)
    ensures |responses| == |trace|
  {
    seq(|trace|, i requires 0 <= i < |trace| => trace[i].response)
  }

  /** The messages served one after another, up to the first whose header does not parse. */
  ghost predicate IsRun<S>(handler: Handler<S>, messages: seq<seq<byte>>, trace: seq<Exchange>, states: seq<S>) {
    Served(handler, messages, trace, states) && (|trace| < |messages| ==> ParseHeader(messages[|trace|]).None?)
  }

  ghost predicate Served<S>(handler: Handler<S>, messages: seq<seq<byte>>, trace: seq<Exchange>, states: seq<S>) {
    && |states| == |trace| + 1 && |trace| <= |messages|
    && forall i :: 0 <= i < |trace| ==>
         Exchanged(handler, states[i], messages[i], trace[..i]) == (states[i + 1], Some(trace[i]))
  }

  lemma ServedOneMore<S>(handler: Handler<S>, messages: seq<seq<byte>>, trace: seq<Exchange>, states: seq<S>,
                         session: S, exchange: Exchange)
    requires Served(handler, messages, trace, states) && |trace| < |messages|
    requires Exchanged(handler, states[|trace|], messages[|trace|], trace) == (session, Some(exchange))
    ensures Served(handler, messages, trace + [exchange], states + [session])
    ensures Responses(trace + [exchange]) == Responses(trace) + [exchange.response]
  {
    hide Exchanged;
    var longer := trace + [exchange];
    assert forall k :: 0 <= k <= |trace| ==> longer[..k] == trace[..k];
    assert trace[..|trace|] == trace;
  }

  /** One message of the frame, with the loop's variables before and after it. */
  method ServeMessage<S>(handler: Handler<S>, session: S, message: seq<byte>, lastFileId: Bytes16, lastTreeId: uint32,
                         ghost trace: seq<Exchange>)
    returns (session': S, response: Option<Message>, lastFileId': Bytes16, lastTreeId': uint32)
    requires lastFileId == LastFileId(trace) && lastTreeId == LastTreeId(trace)
    ensures session' == Exchanged(handler, session, message, trace).0
    ensures var exchange := Exchanged(handler, session, message, trace).1;
            && (exchange.Some? <==> response.Some?)
            && (exchange.Some? ==> response.value == exchange.value.response
                                   && lastFileId' == LastFileId(trace + [exchange.value])
                                   && lastTreeId' == LastTreeId(trace + [exchange.value]))
  {
    hide Inherit, ParseHeader, LastFileId, LastTreeId, BuildErrorResponse, IsCreated, CreatedFileId;
    session', response, lastFileId', lastTreeId' := session, None, lastFileId, lastTreeId;
    var header := ParseHeader(message);
    if header.None? {
      return;
    }
    var req := Inherit(Request(header.value, message[SMB2_HEADER_SIZE..]), lastFileId, lastTreeId);
    var answer := handler(session, req);
    session' := answer.0;
    if answer.1.None? {
      response := Some(BuildErrorResponse(header.value, STATUS_UNSUCCESSFUL));
      LastOfFailed(trace, Exchange(req, response.value, false));
      return;
    }
    response := answer.1;
    LastOfHandled(trace, Exchange(req, response.value, true));
    if IsCreated(req.header.command, response.value) {
      lastFileId' := CreatedFileId(response.value);
    }
    lastTreeId' := ReadLE32(response.value, 36);
  }

  /** A whole frame: the run over its messages from one session state to the next, and what is sent back. */
  ghost predicate IsFrameRun<S>(handler: Handler<S>, raw: seq<byte>, session: S, session': S, out: Option<seq<byte>>,
                                trace: seq<Exchange>, states: seq<S>)
  {
    && IsRun(handler, Split(raw), trace, states)
    && states[0] == session && states[|trace|] == session'
    && out == if trace == [] then None else Some(Join(Responses(trace)))
  }

  method ServeFrame<S(!new)>(handler: Handler<S>, session: S, raw: seq<byte>)
    returns (session': S, out: Option<seq<byte>>)
    ensures [0xFF, 0x53, 0x4D, 0x42] <= raw ==> out == None && session' == session
    ensures !([0xFF, 0x53, 0x4D, 0x42] <= raw) ==>
              exists trace, states :: IsFrameRun(handler, raw, session, session', out, trace, states)
  {
    session', out := session, None;
    ghost var trace: seq<Exchange>, states := [], [session];
    if SMB1_MAGIC <= raw {
      return;
    }
    var messages := SplitCompound(raw);
    var responses: seq<Message>, lastFileId: Bytes16, lastTreeId: uint32 := [], Zeros(16), 0;
    LastOfNothing();
    StartsServed(handler, messages, session);
    hide Split, Join, ParseHeader, LastFileId, LastTreeId, Exchanged, Served, Responses;
    var i := 0;
    while i < |messages|
      invariant 0 <= i <= |messages| && |trace| == i && |states| == i + 1
      invariant states[0] == session && states[i] == session'
      invariant Served(handler, messages, trace, states)
      invariant responses == Responses(trace)
      invariant lastFileId == LastFileId(trace) && lastTreeId == LastTreeId(trace)
    {
      ghost var exchange := Exchanged(handler, session', messages[i], trace).1;
      ParsesExactlyWhenExchanged(handler, session', messages[i], trace);
      var response;
      session', response, lastFileId, lastTreeId :=
        ServeMessage(handler, session', messages[i], lastFileId, lastTreeId, trace);
      if response.None? {
        break;
      }
      responses := responses + [response.value];
      ServedOneMore(handler, messages, trace, states, session', exchange.value);
      trace, states := trace + [exchange.value], states + [session'];
      i := i + 1;
    }
    if responses != [] {
      var frame := JoinResponses(responses);
      out := Some(frame);
    }
    assert IsFrameRun(handler, raw, session, session', out, trace, states);
  }

  lemma StartsServed<S>(handler: Handler<S>, messages: seq<seq<byte>>, session: S)
    ensures Served(handler, messages, [], [session]) && Responses([]) == []
  {
  }

  lemma ParsesExactlyWhenExchanged<S>(handler: Handler<S>, session: S, message: seq<byte>, trace: seq<Exchange>)
    ensures Exchanged(handler, session, message, trace).1.Some? <==> ParseHeader(message).Some?
    ensures ParseHeader(message).None? ==> Exchanged(handler, session, message, trace).0 == session
  {
  }

  lemma LastOfNothing()
    ensures LastFileId([]) == Zeros(16) && LastTreeId([]) == 0
  {
  }

  lemma LastOfHandled(trace: seq<Exchange>, last: Exchange)
    requires last.handled
    ensures LastTreeId(trace + [last]) == ReadLE32(last.response, 36)
    ensures LastFileId(trace + [last]) == if IsCreated(last.req.header.command, last.response)
                                          then CreatedFileId(last.response) else LastFileId(trace)
  {
    assert (trace + [last])[..|trace|] == trace;
  }

  lemma LastOfFailed(trace: seq<Exchange>, last: Exchange)
    requires !last.handled
    ensures LastTreeId(trace + [last]) == LastTreeId(trace) && LastFileId(trace + [last]) == LastFileId(trace)
  {
    assert (trace + [last])[..|trace|] == trace;
  }

  // ---------------------------------------------------------------------------------------------
  // What a frame's run means
  // ---------------------------------------------------------------------------------------------

  /** A message's answer is its own, whether the handler gave it or the server for it. */
  lemma ExchangeAnswers<S(!new)>(handler: Handler<S>, messages: seq<seq<byte>>, trace: seq<Exchange>, states: seq<S>,
                                 i: nat)
    requires Sound(handler) && IsRun(handler, messages, trace, states) && i < |trace|
    ensures ParseHeader(messages[i]).Some? && Answers(trace[i].response, ParseHeader(messages[i]).value)
  {
    var e := Exchanged(handler, states[i], messages[i], trace[..i]);
    assert e == (states[i + 1], Some(trace[i]));
    var header := ParseHeader(messages[i]).value;
    HeaderRoundTrip(header, STATUS_UNSUCCESSFUL, [9, 0, 0, 0] + LE32(0));
    assert BuildErrorResponse(header, STATUS_UNSUCCESSFUL)
        == BuildResponseHeader(header, STATUS_UNSUCCESSFUL) + ([9, 0, 0, 0] + LE32(0));
    var req := Inherit(Request(header, messages[i][SMB2_HEADER_SIZE..]), LastFileId(trace[..i]),
                       LastTreeId(trace[..i]));
    assert Answers(trace[i].response, req.header) || Answers(trace[i].response, header);
  }

  /**
   The client that splits the answer frame finds one answer per message of the longest prefix that
   parses, in order, each with its message's id and command.
   */
  lemma FrameIsAnswered<S(!new)>(handler: Handler<S>, messages: seq<seq<byte>>, trace: seq<Exchange>, states: seq<S>)
    requires Sound(handler) && IsRun(handler, messages, trace, states) && trace != []
    ensures var answers := Split(Join(Responses(trace)));
            && |answers| == |trace|
            && forall i :: 0 <= i < |trace| ==>
                 && ParseHeader(messages[i]).Some? && |answers[i]| >= SMB2_HEADER_SIZE
                 && answers[i][24..32] == ParseHeader(messages[i]).value.messageId
                 && answers[i][12..14] == ParseHeader(messages[i]).value.command
  {
    var responses := Responses(trace);
    ExchangeAnswers(handler, messages, trace, states, |trace| - 1);
    SplitOfJoin(responses);
    hide Split, Join, ParseHeader, Chained, Exchanged;
    forall i | 0 <= i < |trace|
      ensures ParseHeader(messages[i]).Some?
      ensures Parts(responses)[i][24..32] == ParseHeader(messages[i]).value.messageId
      ensures Parts(responses)[i][12..14] == ParseHeader(messages[i]).value.command
    {
      ExchangeAnswers(handler, messages, trace, states, i);
      PartKeepsIdentity(responses, i);
    }
  }

  lemma PartKeepsIdentity(responses: seq<Message>, i: nat)
    requires i < |responses|
    ensures Parts(responses)[i][24..32] == responses[i][24..32] && Parts(responses)[i][12..14] == responses[i][12..14]
  {
    if i < |responses| - 1 {
      forall k | k in {12, 13} || 24 <= k < 32 ensures Chained(responses[i])[k] == responses[i][k] {
        ChainedKeepsTheRest(responses[i], k);
      }
    }
  }

  /** The file id a chain hands on is that of the latest CREATE of the frame that succeeded. */
  lemma {:induction false} LastFileIdIsLatestCreate(trace: seq<Exchange>, j: nat)
    requires CreatedAt(trace, j) && forall k :: j < k < |trace| ==> !CreatedAt(trace, k)
    ensures LastFileId(trace) == CreatedFileId(trace[j].response)
  {
    var n := |trace| - 1;
    if j < n {
      assert !CreatedAt(trace, n);
      assert forall k :: j <= k < n ==> CreatedAt(trace[..n], k) == CreatedAt(trace, k);
      LastFileIdIsLatestCreate(trace[..n], j);
    }
  }

  lemma {:induction false} LastFileIdWithoutCreate(trace: seq<Exchange>)
    requires forall k :: 0 <= k < |trace| ==> !CreatedAt(trace, k)
    ensures LastFileId(trace) == Zeros(16)
  {
    if trace != [] {
      var n := |trace| - 1;
      assert !CreatedAt(trace, n);
      assert forall k :: 0 <= k < n ==> CreatedAt(trace[..n], k) == CreatedAt(trace, k);
      LastFileIdWithoutCreate(trace[..n]);
    }
  }

  predicate CreatedAt(trace: seq<Exchange>, j: int) {
    0 <= j < |trace| && trace[j].handled && IsCreated(trace[j].req.header.command, trace[j].response)
  }

  /**
   In a related operation the first run of sixteen 0xFF bytes of the payload, wherever its FileId
   field is, has become the chain's file id, and nothing else of the payload has changed.
   */
  lemma RelatedInheritsFileId<S>(handler: Handler<S>, messages: seq<seq<byte>>, trace: seq<Exchange>, states: seq<S>,
                                 i: nat, at: nat)
    requires IsRun(handler, messages, trace, states) && i < |trace|
    requires |messages[i]| >= SMB2_HEADER_SIZE && RelatedOnTheWire(messages[i])
    requires IsSentinelAt(messages[i][SMB2_HEADER_SIZE..], at)
    requires forall k :: 0 <= k < at ==> !IsSentinelAt(messages[i][SMB2_HEADER_SIZE..], k)
    ensures var was, now := messages[i][SMB2_HEADER_SIZE..], trace[i].req.payload;
            && |now| == |was| && now[at..at + 16] == LastFileId(trace[..i])
            && now[..at] == was[..at] && now[at + 16..] == was[at + 16..]
  {
    assert Exchanged(handler, states[i], messages[i], trace[..i]) == (states[i + 1], Some(trace[i]));
    RelatedIsWireBit(messages[i]);
    var req := Request(ParseHeader(messages[i]).value, messages[i][SMB2_HEADER_SIZE..]);
    assert trace[i].req == Inherit(req, LastFileId(trace[..i]), LastTreeId(trace[..i]));
    hide *;
    InheritReplaces(req, LastFileId(trace[..i]), LastTreeId(trace[..i]), at);
  }

  /** The last CREATE before message `i` that succeeded, in this frame. */
  predicate IsLatestCreate(trace: seq<Exchange>, j: int, i: nat) {
    0 <= j < i <= |trace| && CreatedAt(trace, j) && forall k :: j < k < i ==> !CreatedAt(trace, k)
  }

  /**
   A related operation acts on the file of the latest successful CREATE in its frame: where its
   payload had the sentinel it now has the id that CREATE's answer gave to the file, and without such
   a CREATE sixteen zeros.
   */
  lemma RelatedActsOnLatestCreate<S>(handler: Handler<S>, messages: seq<seq<byte>>, trace: seq<Exchange>,
                                     states: seq<S>, i: nat, at: nat)
    requires IsRun(handler, messages, trace, states) && i < |trace|
    requires |messages[i]| >= SMB2_HEADER_SIZE && RelatedOnTheWire(messages[i])
    requires IsSentinelAt(messages[i][SMB2_HEADER_SIZE..], at)
    requires forall k :: 0 <= k < at ==> !IsSentinelAt(messages[i][SMB2_HEADER_SIZE..], k)
    ensures var was, now := messages[i][SMB2_HEADER_SIZE..], trace[i].req.payload;
            && |now| == |was| && now[..at] == was[..at] && now[at + 16..] == was[at + 16..]
            && (forall j, action, times, attributes, fileId ::
                  IsLatestCreate(trace, j, i)
                  && trace[j].response == CreateResponse(trace[j].req.header, action, times, attributes, fileId)
                  ==> now[at..at + 16] == fileId)
            && ((forall k :: 0 <= k < i ==> !CreatedAt(trace, k)) ==> now[at..at + 16] == Zeros(16))
  {
    RelatedInheritsFileId(handler, messages, trace, states, i, at);
    var now := trace[i].req.payload;
    var earlier := trace[..i];
    forall j, action, times, attributes, fileId |
      IsLatestCreate(trace, j, i)
      && trace[j].response == CreateResponse(trace[j].req.header, action, times, attributes, fileId)
      ensures now[at..at + 16] == fileId
    {
      hide ParseHeader, IsSentinelAt, LastFileId, CreateResponse, IsRun;
      assert forall k :: 0 <= k < i ==> CreatedAt(earlier, k) == CreatedAt(trace, k);
      LastFileIdIsLatestCreate(earlier, j);
      CreateResponseCarriesFileId(trace[j].req.header, action, times, attributes, fileId);
    }
    if forall k :: 0 <= k < i ==> !CreatedAt(trace, k) {
      assert forall k :: 0 <= k < i ==> CreatedAt(earlier, k) == CreatedAt(trace, k);
      LastFileIdWithoutCreate(earlier);
    }
  }

  /** Without the related flag a message is dispatched as it came. */
  lemma UnrelatedIsUnchanged<S>(handler: Handler<S>, messages: seq<seq<byte>>, trace: seq<Exchange>, states: seq<S>,
                                i: nat)
    requires IsRun(handler, messages, trace, states) && i < |trace|
    requires |messages[i]| >= SMB2_HEADER_SIZE && !RelatedOnTheWire(messages[i])
    ensures ParseHeader(messages[i]) == Some(trace[i].req.header)
    ensures trace[i].req.payload == messages[i][SMB2_HEADER_SIZE..]
  {
    assert Exchanged(handler, states[i], messages[i], trace[..i]) == (states[i + 1], Some(trace[i]));
    RelatedIsWireBit(messages[i]);
    hide ParseHeader, IsRelated;
  }

  /**
   A related operation with TreeId zero goes to the tree of the latest answer that a handler of the frame
   gave, or to tree zero without one; any other goes to its own.  The rest of its header stays.
   */
  lemma RelatedInheritsTreeId<S>(handler: Handler<S>, messages: seq<seq<byte>>, trace: seq<Exchange>, states: seq<S>,
                                 i: nat)
    requires IsRun(handler, messages, trace, states) && i < |trace|
    requires |messages[i]| >= SMB2_HEADER_SIZE && RelatedOnTheWire(messages[i])
    ensures ParseHeader(messages[i]).Some?
    ensures (forall k :: !IsSentinelAt(messages[i][SMB2_HEADER_SIZE..], k)) ==>
              trace[i].req.payload == messages[i][SMB2_HEADER_SIZE..]
    ensures var sent, req := ParseHeader(messages[i]).value, trace[i].req.header;
            && req == sent.(treeId := req.treeId)
            && (sent.treeId != 0 ==> req.treeId == sent.treeId)
            && (sent.treeId == 0 ==>
                  && (forall j :: IsLatestHandled(trace, j, i) && ParseHeader(trace[j].response).Some?
                                  ==> req.treeId == ParseHeader(trace[j].response).value.treeId)
                  && ((forall k :: 0 <= k < i ==> !trace[k].handled) ==> req.treeId == 0))
  {
    assert Exchanged(handler, states[i], messages[i], trace[..i]) == (states[i + 1], Some(trace[i]));
    RelatedIsWireBit(messages[i]);
    var earlier := trace[..i];
    forall j | IsLatestHandled(trace, j, i) && ParseHeader(trace[j].response).Some?
      ensures LastTreeId(earlier) == ParseHeader(trace[j].response).value.treeId
    {
      LastTreeIdIsLatestHandled(earlier, j);
    }
    if forall k :: 0 <= k < i ==> !trace[k].handled {
      LastTreeIdWithoutHandled(earlier);
    }
    hide ParseHeader, IsRelated, LastTreeId, FindSentinel;
  }

  predicate IsLatestHandled(trace: seq<Exchange>, j: int, i: nat) {
    0 <= j < i <= |trace| && trace[j].handled && forall k :: j < k < i ==> !trace[k].handled
  }

  lemma {:induction false} LastTreeIdIsLatestHandled(trace: seq<Exchange>, j: nat)
    requires IsLatestHandled(trace, j, |trace|) && ParseHeader(trace[j].response).Some?
    ensures LastTreeId(trace) == ParseHeader(trace[j].response).value.treeId
  {
    var n := |trace| - 1;
    if j < n {
      LastTreeIdIsLatestHandled(trace[..n], j);
    }
  }

  lemma {:induction false} LastTreeIdWithoutHandled(trace: seq<Exchange>)
    requires forall k :: 0 <= k < |trace| ==> !trace[k].handled
    ensures LastTreeId(trace) == 0
  {
    if trace != [] {
      LastTreeIdWithoutHandled(trace[..|trace| - 1]);
    }
  }

  /** A CREATE that succeeded, as client and server see it: command 5, answered by its handler, status zero. */
  lemma CreatedOnTheWire<S>(handler: Handler<S>, messages: seq<seq<byte>>, trace: seq<Exchange>, states: seq<S>, i: nat)
    requires IsRun(handler, messages, trace, states) && i < |trace|
    requires ParseHeader(trace[i].response).Some?
    ensures |messages[i]| >= SMB2_HEADER_SIZE
    ensures CreatedAt(trace, i) <==> && messages[i][12..14] == [5, 0] && trace[i].handled
                                     && |trace[i].response| >= 64 + 82
                                     && ParseHeader(trace[i].response).value.status == 0
  {
    assert Exchanged(handler, states[i], messages[i], trace[..i]) == (states[i + 1], Some(trace[i]));
    assert trace[i].req.header.command == ParseHeader(messages[i]).value.command;
  }

  /** What a handler answers is what is sent, and the session it leaves is the next message's. */
  lemma HandlerAnswerIsSent<S>(handler: Handler<S>, messages: seq<seq<byte>>, trace: seq<Exchange>, states: seq<S>,
                               i: nat)
    requires IsRun(handler, messages, trace, states) && i < |trace|
    ensures var answer := handler(states[i], trace[i].req);
            && states[i + 1] == answer.0 && (trace[i].handled <==> answer.1.Some?)
            && (trace[i].handled ==> trace[i].response == answer.1.value)
  {
    assert Exchanged(handler, states[i], messages[i], trace[..i]) == (states[i + 1], Some(trace[i]));
  }

  /** When a handler raises, the client is told so: status 0xC0000001. */
  lemma FailureIsReported<S>(handler: Handler<S>, messages: seq<seq<byte>>, trace: seq<Exchange>, states: seq<S>,
                             i: nat)
    requires IsRun(handler, messages, trace, states) && i < |trace| && !trace[i].handled
    ensures ParseHeader(trace[i].response).Some? && ParseHeader(trace[i].response).value.status == 0xC000_0001
  {
    assert Exchanged(handler, states[i], messages[i], trace[..i]) == (states[i + 1], Some(trace[i]));
    var header := ParseHeader(messages[i]).value;
    HeaderRoundTrip(header, STATUS_UNSUCCESSFUL, [9, 0, 0, 0] + LE32(0));
    assert BuildErrorResponse(header, STATUS_UNSUCCESSFUL)
        == BuildResponseHeader(header, STATUS_UNSUCCESSFUL) + ([9, 0, 0, 0] + LE32(0));
  }

  lemma InheritReplaces(req: Request, lastFileId: Bytes16, lastTreeId: uint32, at: nat)
    requires IsRelated(req.header.flags) && IsSentinelAt(req.payload, at)
    requires forall k :: 0 <= k < at ==> !IsSentinelAt(req.payload, k)
    ensures var was, now := req.payload, Inherit(req, lastFileId, lastTreeId).payload;
            && |now| == |was| && at + 16 <= |was| && now[at..at + 16] == lastFileId
            && now[..at] == was[..at] && now[at + 16..] == was[at + 16..]
  {
    assert FindSentinel(req.payload, 0) == Some(at);
  }
}

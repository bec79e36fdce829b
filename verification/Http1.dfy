/** One HTTP/1 connection (lib/http1.c): its callbacks, from the bytes read to the requests handed on, and from the
    responses of handlers to the bytes written. Handlers answer in steps of their own. */
module Http1 {
  import opened Options
  import opened Http1Stream
  import ChunkDecoder

  // ---- State ------------------------------------------------------------------------------------------------

  /** The callback that takes the request body. */
  datatype WriteReq = Unset | ReadFirst | NonStreaming | Streaming | ConnectFirst

  /** The response on the wire. */
  datatype OState = AtHead | InBody | Done

  /** The response in the hands of the handler. */
  datatype Resp = NotStarted | CanSend | Sending | Ended

  datatype SendState = InProgress | Final | Error

  /** What the one outstanding socket write is for. */
  datatype Writing = WContinue | WInfo | WNext | WFinal | WTrailers

  datatype Pending = Pending(state: SendState, refused: bool)

  /** Where the current request is: its head awaited, its body collected, its body forwarded to the handler, all of
      it handed on, or given up. */
  datatype Stage = AwaitHead | Buffering | Forwarding | Whole | Failed

  datatype Emission = Interim(n: nat) | FinalHead | Payload

  /** What the surroundings decide: whether the handler can stream, whether memory or the handler fails, whether the
      server is shutting down or takes a broken head for HTTP/2. */
  datatype Env = Env(canStream: bool, appendFails: bool, handlerFails: bool, shutdown: bool, http2: bool)

  // ---- Heads ------------------------------------------------------------------------------------------------

  /** fixup_request: None for a bad request, otherwise whether it is a tunnel and whether the connection persists. */
  function Fixup(h: Head, shutdown: bool): (r: Option<(bool, bool)>)
    ensures r.Some? ==> !(r.value.0 && r.value.1)
  {
    if !h.wellFormed then None else
    match h.meth
    case Connect => if !h.v11 || h.entity != NoEntity then None else Some((true, false))
    case ConnectUdp => Some((true, false))
    case Ordinary =>
      if h.connection && h.upgrades && h.entity == NoEntity then Some((true, false))
      else Some((false, (if h.connection then h.keepAlive else h.v11) && !shutdown))
  }

  predicate CrlfOnly(s: string) { forall i :: 0 <= i < |s| ==> s[i] == '\r' || s[i] == '\n' }

  /** The status with which a complete head is refused. */
  function HeadStatus(h: Head, shutdown: bool, max: nat): Option<nat> {
    if Fixup(h, shutdown).None? then Some(400)
    else if h.entity.NoEntity? then None
    else if h.expectsOther then Some(417)
    else if h.entity.BadEntity? then Some(400)
    else if h.entity.Length? && h.entity.n > max then Some(413)
    else None
  }

  /** The status with which what has come of a body is refused. */
  function EntityStatus(reader: Reader, received: nat, input: string, max: nat): Option<nat> {
    if !reader.Chunks? || input == "" then None else
    var r := ChunkDecoder.Run(reader.st, input);
    if r.st.Broken? || (!r.st.Complete? && TooMuch(reader, input)) then Some(400)
    else if |r.data| + received >= max then Some(413) else None
  }

  /** The reader after `input`, which does not end the body. */
  function Onward(reader: Reader, input: string): Reader {
    if !reader.Chunks? then reader else
    var r := ChunkDecoder.Run(reader.st, input);
    Chunks(r.st, reader.read + |input|, reader.overhead + |input| - |r.data|)
  }

  /** The overhead guard of the chunked decoder. */
  predicate TooMuch(reader: Reader, input: string) {
    reader.Chunks? && ChunkDecoder.Wasteful(Onward(reader, input).read, Onward(reader, input).overhead)
  }

  /** The input holds the rest of the body. */
  predicate BodyEnds(reader: Reader, received: nat, input: string) {
    match reader
    case Fixed(n) => received + |input| >= n
    case Chunks(st, _, _) => ChunkDecoder.Run(st, input).st.Complete?
    case _ => false
  }

  function BodyReader(e: Entity): Reader { if e.Length? then Fixed(e.n) else Chunks(ChunkDecoder.START, 0, 0) }

  /** The status with which what has come of a request is refused. */
  function RequestStatus(g: Grammar, input: string, shutdown: bool, max: nat): Option<nat> {
    match Parse(g, input)
    case Incomplete => if |input| >= MAX_REQLEN then Some(400) else None
    case Invalid => Some(400)
    case Complete(n, h) =>
      if HeadStatus(h, shutdown, max).Some? then HeadStatus(h, shutdown, max)
      else if h.entity.NoEntity? || h.expectsContinue then None
      else EntityStatus(BodyReader(h.entity), 0, input[n..], max)
  }

  /** The status with which what is left in the input after the current request is refused. */
  function NextStatus(g: Grammar, req: Request, input: string, shutdown: bool, max: nat): Option<nat> {
    if req.unconsumed <= |input| then RequestStatus(g, input[req.unconsumed..], shutdown, max) else None
  }

  /** The same for what has been read, be it of the head or of the body. */
  function ReadStatus(g: Grammar, req: Request, input: string, shutdown: bool, max: nat): Option<nat> {
    if req.reader.NoReader? then RequestStatus(g, input, shutdown, max)
    else EntityStatus(req.reader, req.received, input, max)
  }

  /** The input holds a request with all of its body, and no 100 Continue stands between the two. */
  predicate RequestEnds(g: Grammar, input: string, shutdown: bool) {
    match Parse(g, input)
    case Complete(n, h) =>
      if h.entity.NoEntity? then Fixup(h, shutdown).Some? && !Fixup(h, shutdown).value.0
      else !h.expectsContinue && BodyEnds(BodyReader(h.entity), 0, input[n..])
    case _ => false
  }

  /** What has been read ends the request. */
  predicate ReadEnds(g: Grammar, req: Request, input: string, shutdown: bool) {
    if req.reader.NoReader? then RequestEnds(g, input, shutdown) else BodyEnds(req.reader, req.received, input)
  }

  /** Nothing outside the connection goes wrong. */
  predicate Lucky(env: Env) { !env.appendFails && !env.handlerFails && !env.http2 }

  // ---- Invariants -------------------------------------------------------------------------------------------

  /** Every byte received is in an earlier request, in the current one, or in the input. */
  ghost predicate Framed(g: Grammar, stage: Stage, total: string, past: string, wire: string, prior: seq<Msg>,
                         input: string, unconsumed: nat) {
    && IsStream(g, past, prior) && past <= total
    && (!stage.Failed? ==> unconsumed <= |input| && total == past + wire + input[unconsumed..])
  }

  ghost function HeadText(g: Grammar, wire: string): string {
    if Parse(g, wire).Complete? then wire[..Parse(g, wire).len] else ""
  }

  /** The body read so far, at the reader's position. */
  ghost predicate PartWire(g: Grammar, wire: string, reader: Reader, data: string) {
    var p := Parse(g, wire);
    p.Complete? &&
    match reader
    case NoReader => false
    case Fixed(n) => p.head.entity == Length(n) && data == wire[p.len..] && |data| <= n
    case Endless => data == wire[p.len..]
    case Chunks(st, read, overhead) =>
      && p.head.entity == ChunkedEntity && !ChunkDecoder.Ended(st)
      && ChunkDecoder.Run(ChunkDecoder.START, wire[p.len..]) == ChunkDecoder.Result(st, data, "")
      && read == |wire| - p.len && overhead == read - |data|
  }

  /** A body of known length is not all there. */
  ghost predicate Partial(reader: Reader, data: string) { reader.Fixed? ==> |data| < reader.length }

  /** Bodies other than those of tunnels stay within the limit. */
  ghost predicate Limited(tunnel: bool, reader: Reader, data: string, max: nat) {
    && (reader.Endless? ==> tunnel)
    && (!tunnel ==> |data| <= max && (reader.Fixed? ==> reader.length <= max))
  }

  ghost predicate Current(g: Grammar, stage: Stage, wire: string, unconsumed: nat, reader: Reader, head: string,
                          data: string, cur: Msg) {
    match stage
    case AwaitHead => wire == "" && unconsumed == 0 && reader == NoReader && data == ""
    case Buffering => unconsumed == 0 && PartWire(g, wire, reader, data) && head == HeadText(g, wire)
    case Forwarding => unconsumed == 0 && PartWire(g, wire, reader, data) && head == HeadText(g, wire)
    case Whole => reader == NoReader && MsgWire(g, wire, cur) && cur == Msg(head, data)
    case Failed => reader == NoReader
  }

  /** No complete head, no body bytes and no complete body are left lying while the connection reads. */
  ghost predicate Drained(g: Grammar, stage: Stage, reading: bool, input: string, reader: Reader, data: string) {
    && (stage.AwaitHead? ==> Parse(g, input).Incomplete? && |input| < MAX_REQLEN)
    && (stage.Buffering? && reading ==> input == "" && Partial(reader, data))
    && (stage.Forwarding? ==> input == "" && Partial(reader, data))
  }

  ghost predicate EndsWith(s: string, t: string) { |t| <= |s| && s[|s| - |t|..] == t }

  /** `body` is the buffer, `entity` the view of it handlers see, and `given` all that they have seen of this body. */
  ghost predicate Control(stage: Stage, reading: bool, write: Option<Writing>, writeReq: WriteReq, proceed: bool,
                          awaiting: bool, resp: Resp, persistent: bool, tunnel: bool,
                          body: string, entity: string, data: string, given: string) {
    && (tunnel ==> !persistent)
    && match stage
       case AwaitHead =>
         reading && write.None? && !proceed && !awaiting && resp.NotStarted? && body == entity == given == ""
       case Buffering =>
         && !proceed && !awaiting && resp.NotStarted? && given == "" && body == data
         && (writeReq.ReadFirst? || writeReq.NonStreaming?) && (reading <==> write.None?)
         && (write.Some? ==> write.value.WContinue?)
       case Forwarding =>
         && proceed && (awaiting <==> !reading) && given == data && (writeReq.Streaming? || awaiting)
         && (if awaiting then entity == body && EndsWith(given, entity) else body == "")
         && write != Some(WContinue)
       case Whole =>
         && !proceed && !reading && !awaiting && given == data && write != Some(WContinue)
         && EndsWith(given, entity) && (!writeReq.Streaming? ==> entity == given)
       case Failed => !proceed && !reading && !persistent && write != Some(WContinue)
  }

  /** Interim responses come first, then at most one final head, then data. */
  ghost predicate Ordered(e: seq<Emission>, headSent: bool) {
    if e == [] then !headSent else
    match e[|e| - 1]
    case Interim(_) => !headSent && Ordered(e[..|e| - 1], false)
    case FinalHead => headSent && Ordered(e[..|e| - 1], false)
    case Payload => headSent && Ordered(e[..|e| - 1], true)
  }

  ghost predicate Output(ostate: OState, resp: Resp, write: Option<Writing>, inflight: bool,
                         pendingFinal: Option<Pending>, emitted: seq<Emission>, refused: bool) {
    && (inflight <==> write == Some(WInfo))
    && (pendingFinal.Some? ==>
          inflight && ostate.AtHead? && resp == if pendingFinal.value.state.InProgress? then Sending else Ended)
    && (refused ==> ostate.Done?)
    && Ordered(emitted, !ostate.AtHead? && !refused)
    && match ostate
       case AtHead => (pendingFinal.None? ==> resp.NotStarted?)
           && (write.Some? ==> write.value.WInfo? || write.value.WContinue?)
       case InBody =>
         || (resp.CanSend? && write.None?) || (resp.Sending? && write == Some(WNext))
         || (resp.Ended? && (write == Some(WFinal) || write == Some(WTrailers)))
       case Done => resp.Ended? && write.None?
  }

  lemma OrderedSnoc(e: seq<Emission>, headSent: bool, x: Emission)
    requires Ordered(e, headSent)
    ensures x.Interim? && !headSent ==> Ordered(e + [x], false)
    ensures x.FinalHead? && !headSent ==> Ordered(e + [x], true)
    ensures x.Payload? && headSent ==> Ordered(e + [x], true)
  {
    assert (e + [x])[..|e|] == e;
  }

  function Interims(ns: seq<nat>): (e: seq<Emission>)
    ensures |e| == |ns| && forall i :: 0 <= i < |e| ==> e[i] == Interim(ns[i])
  {
    if ns == [] then [] else Interims(ns[..|ns| - 1]) + [Interim(ns[|ns| - 1])]
  }

  lemma {:induction false} OrderedInterims(e: seq<Emission>, ns: seq<nat>)
    requires Ordered(e, false)
    ensures Ordered(e + Interims(ns), false)
  {
    if ns == [] {
      assert e + Interims(ns) == e;
    } else {
      var n := |ns| - 1;
      OrderedInterims(e, ns[..n]);
      OrderedSnoc(e + Interims(ns[..n]), false, Interim(ns[n]));
      assert e + Interims(ns) == (e + Interims(ns[..n])) + [Interim(ns[n])];
    }
  }

  // ---- Bytes ------------------------------------------------------------------------------------------------

  lemma MoreInput(g: Grammar, stage: Stage, total: string, past: string, wire: string, prior: seq<Msg>, input: string,
                  unconsumed: nat, chunk: string)
    requires Framed(g, stage, total, past, wire, prior, input, unconsumed) && unconsumed <= |input|
    ensures Framed(g, stage, total + chunk, past, wire, prior, input + chunk, unconsumed)
  {
    hide IsStream;
    assert (input + chunk)[unconsumed..] == input[unconsumed..] + chunk;
  }

  /** The head of a request with a body is taken off the input. */
  lemma TakeHead(g: Grammar, total: string, past: string, prior: seq<Msg>, input: string, reader: Reader)
    requires Framed(g, AwaitHead, total, past, "", prior, input, 0) && Parse(g, input).Complete?
    requires var e := Parse(g, input).head.entity;
        reader == Endless || (e.Length? && reader == Fixed(e.n))
        || (e.ChunkedEntity? && reader == Chunks(ChunkDecoder.START, 0, 0))
    ensures var n := Parse(g, input).len;
        Framed(g, Buffering, total, past, input[..n], prior, input[n..], 0)
        && PartWire(g, input[..n], reader, "") && HeadText(g, input[..n]) == input[..n]
  {
    hide IsStream, Parse;
    var n := Parse(g, input).len;
    HeadTrim(g, input);
    assert input == input[..n] + input[n..] && input[..n][n..] == "";
    assert past + "" == past && input[0..] == input && input[n..][0..] == input[n..];
    assert past + input == past + input[..n] + input[n..];
  }

  /** A request without a body is whole; its head stays in the input until the next request. */
  lemma TakeWhole(g: Grammar, total: string, past: string, prior: seq<Msg>, input: string)
    requires Framed(g, AwaitHead, total, past, "", prior, input, 0) && Parse(g, input).Complete?
        && Parse(g, input).head.entity.NoEntity?
    ensures var n := Parse(g, input).len;
        Framed(g, Whole, total, past, input[..n], prior, input, n)
        && MsgWire(g, input[..n], Msg(input[..n], ""))
  {
    hide IsStream, Parse;
    var n := Parse(g, input).len;
    HeadTrim(g, input);
    assert input[..n][n..] == "" && input[..n][..n] == input[..n];
    assert past + "" == past && input[0..] == input;
    assert past + input == past + input[..n] + input[n..];
  }

  /** `k` bytes go from the input to the current request. */
  lemma Consume(g: Grammar, stage: Stage, total: string, past: string, wire: string, prior: seq<Msg>, input: string,
                k: nat)
    requires Framed(g, stage, total, past, wire, prior, input, 0) && !stage.Failed? && k <= |input|
    ensures Framed(g, stage, total, past, wire + input[..k], prior, input[k..], 0)
  {
    hide IsStream;
    assert input[0..] == input && input[k..][0..] == input[k..];
    assert past + wire + input == past + (wire + input[..k]) + input[k..];
  }

  lemma MoreFixed(g: Grammar, wire: string, n: nat, data: string, more: string)
    requires PartWire(g, wire, Fixed(n), data) && |data| + |more| <= n
    ensures HeadText(g, wire + more) == HeadText(g, wire)
    ensures PartWire(g, wire + more, Fixed(n), data + more)
    ensures |data| + |more| == n ==> MsgWire(g, wire + more, Msg(HeadText(g, wire), data + more))
  {
    hide Parse;
    var p := Parse(g, wire);
    HeadStable(g, wire, more);
    assert (wire + more)[p.len..] == wire[p.len..] + more && (wire + more)[..p.len] == wire[..p.len];
  }

  lemma MoreEndless(g: Grammar, wire: string, data: string, more: string)
    requires PartWire(g, wire, Endless, data)
    ensures PartWire(g, wire + more, Endless, data + more) && HeadText(g, wire + more) == HeadText(g, wire)
  {
    hide Parse;
    var p := Parse(g, wire);
    HeadStable(g, wire, more);
    assert (wire + more)[p.len..] == wire[p.len..] + more && (wire + more)[..p.len] == wire[..p.len];
  }

  lemma MoreChunks(g: Grammar, wire: string, reader: Reader, data: string, input: string)
    requires reader.Chunks? && PartWire(g, wire, reader, data)
    ensures var r := ChunkDecoder.Run(reader.st, input); var k := |input| - |r.rest|;
            && 0 <= k && input[k..] == r.rest
            && (!ChunkDecoder.Ended(r.st) ==>
                  r.rest == "" && PartWire(g, wire + input, Onward(reader, input), data + r.data)
                  && HeadText(g, wire + input) == HeadText(g, wire))
            && (r.st.Complete? ==> MsgWire(g, wire + input[..k], Msg(HeadText(g, wire), data + r.data)))
  {
    hide Parse, ChunkDecoder.Run;
    var st := reader.st;
    var p, r := Parse(g, wire), ChunkDecoder.Run(st, input);
    ChunkDecoder.RunTrim(st, input);
    ChunkDecoder.RunShorter(st, input);
    var k := |input| - |r.rest|;
    var more := if ChunkDecoder.Ended(r.st) then input[..k] else input;
    HeadStable(g, wire, more);
    assert (wire + more)[p.len..] == wire[p.len..] + more && (wire + more)[..p.len] == wire[..p.len];
    ChunkDecoder.RunAppend(ChunkDecoder.START, wire[p.len..], more);
  }

  /** A whole request becomes one of the earlier ones. */
  lemma FinishRequest(g: Grammar, total: string, past: string, wire: string, prior: seq<Msg>, input: string,
                      unconsumed: nat, cur: Msg)
    requires Framed(g, Whole, total, past, wire, prior, input, unconsumed) && MsgWire(g, wire, cur)
    ensures Framed(g, AwaitHead, total, past + wire, "", prior + [cur], input[unconsumed..], 0)
  {
    hide IsStream, MsgWire;
    StreamSnoc(g, past, prior, wire, cur);
    assert input[unconsumed..][0..] == input[unconsumed..];
    assert past + wire + "" == past + wire;
  }

  lemma GiveUp(g: Grammar, stage: Stage, total: string, past: string, wire: string, prior: seq<Msg>, input: string,
               unconsumed: nat,
               wire': string, input': string, unconsumed': nat)
    requires Framed(g, stage, total, past, wire, prior, input, unconsumed)
    ensures Framed(g, Failed, total, past, wire', prior, input', unconsumed')
  {
  }

  // ---- The parts of a connection ------------------------------------------------------------------------------

  datatype Socket = Socket(input: string, reading: bool, write: Option<Writing>)

  /** `head` and `entity` are what a handler finds in the request. */
  datatype Request = Request(unconsumed: nat, reader: Reader, head: string, body: string, entity: string,
                             received: nat, writeReq: WriteReq, proceed: bool, awaiting: bool, persistent: bool,
                             tunnel: bool)

  datatype Ostream = Ostream(state: OState, resp: Resp, inflight: bool, pending: seq<nat>,
                             pendingFinal: Option<Pending>)

  /** All bytes received, those of earlier requests and those of the current one; the earlier requests and the current
      one as handlers found them; the body so far of its bytes so far, and what the handler has found of it. */
  datatype Log = Log(stage: Stage, total: string, past: string, wire: string, prior: seq<Msg>, cur: Msg, data: string,
                     given: string)

  /** What has been written for the current request, and for the earlier ones. */
  datatype Tape = Tape(emitted: seq<Emission>, refused: bool, before: seq<seq<Emission>>)

  const FRESH_REQUEST := Request(0, NoReader, "", "", "", 0, Unset, false, false, false, false)
  const FRESH_OSTREAM := Ostream(AtHead, NotStarted, false, [], None)

  ghost predicate Bytes(g: Grammar, max: nat, input: string, req: Request, log: Log) {
    && Framed(g, log.stage, log.total, log.past, log.wire, log.prior, input, req.unconsumed)
    && Current(g, log.stage, log.wire, req.unconsumed, req.reader, req.head, log.data, log.cur)
    && Limited(req.tunnel, req.reader, log.data, max) && req.received == |log.data|
  }

  ghost predicate Controlled(sock: Socket, req: Request, resp: Resp, log: Log) {
    Control(log.stage, sock.reading, sock.write, req.writeReq, req.proceed, req.awaiting, resp, req.persistent,
            req.tunnel, req.body, req.entity, log.data, log.given)
  }

  ghost predicate Outgoing(out: Ostream, write: Option<Writing>, tape: Tape) {
    Output(out.state, out.resp, write, out.inflight, out.pendingFinal, tape.emitted, tape.refused)
  }

  /** Every earlier request has had its interim responses and then one final head; only a connection that will close
      refuses to answer. */
  ghost predicate Answered(persistent: bool, log: Log, tape: Tape) {
    && |tape.before| == |log.prior| && (forall e :: e in tape.before ==> Ordered(e, true))
    && (tape.refused ==> !persistent)
  }

  ghost predicate Open(g: Grammar, max: nat, sock: Socket, req: Request, out: Ostream, log: Log, tape: Tape) {
    && Bytes(g, max, sock.input, req, log) && Controlled(sock, req, out.resp, log) && Outgoing(out, sock.write, tape)
    && Answered(req.persistent, log, tape)
    && Drained(g, log.stage, sock.reading, sock.input, req.reader, log.data)
  }

  ghost predicate Over(g: Grammar, log: Log) {
    log.stage.Failed? && IsStream(g, log.past, log.prior) && log.past <= log.total
  }

  /** The requests handed on whole. */
  ghost function Handed(log: Log): seq<Msg> { if log.stage.Whole? then log.prior + [log.cur] else log.prior }

  /** The log of a connection that is closed. */
  ghost function Closing(log: Log): Log {
    if log.stage.Whole? then log.(stage := Failed, past := log.past + log.wire, prior := log.prior + [log.cur])
    else log.(stage := Failed)
  }

  lemma ClosingOk(g: Grammar, max: nat, input: string, req: Request, log: Log)
    requires Bytes(g, max, input, req, log)
    ensures Over(g, Closing(log)) && Handed(Closing(log)) == Handed(log) == Closing(log).prior
        && Closing(log).total == log.total
  {
    hide Limited, PartWire, MsgWire;
    if log.stage.Whole? {
      FinishRequest(g, log.total, log.past, log.wire, log.prior, input, req.unconsumed, log.cur);
    }
  }

  // ---- Responses ----------------------------------------------------------------------------------------------

  predicate Submitted(stage: Stage) { stage.Forwarding? || stage.Whole? || stage.Failed? }

  /** The handler has made a send of kind `state`, which is not yet written. */
  ghost predicate SendDue(g: Grammar, max: nat, sock: Socket, req: Request, out: Ostream, log: Log, tape: Tape,
                          state: SendState) {
    && Bytes(g, max, sock.input, req, log) && Controlled(sock, req, out.resp, log)
    && Answered(req.persistent, log, tape)
    && Drained(g, log.stage, sock.reading, sock.input, req.reader, log.data)
    && Submitted(log.stage) && sock.write.None? && !out.inflight && out.pendingFinal.None? && !out.state.Done?
    && !tape.refused && Ordered(tape.emitted, !out.state.AtHead?)
    && out.resp == if state.InProgress? then Sending else Ended
  }

  function Written(out: Ostream, tape: Tape): Tape {
    tape.(emitted := tape.emitted + if out.state.AtHead? then [FinalHead, Payload] else [Payload])
  }

  lemma SendWrites(g: Grammar, max: nat, sock: Socket, req: Request, out: Ostream, log: Log, tape: Tape,
                   state: SendState)
    requires SendDue(g, max, sock, req, out, log, tape, state)
    ensures Open(g, max, sock.(write := Some(if state.InProgress? then WNext else WFinal)),
                 req.(persistent := req.persistent && !state.Error?), out.(state := InBody), log, Written(out, tape))
  {
    hide Bytes, Drained, Ordered;
    var e := tape.emitted;
    if out.state.AtHead? {
      OrderedSnoc(e, false, FinalHead);
      OrderedSnoc(e + [FinalHead], true, Payload);
      assert e + [FinalHead] + [Payload] == e + [FinalHead, Payload];
    } else {
      OrderedSnoc(e, true, Payload);
    }
    BytesSame(g, max, sock.input, req, req.(persistent := req.persistent && !state.Error?), log);
  }

  lemma BytesSame(g: Grammar, max: nat, input: string, req: Request, req': Request, log: Log)
    requires Bytes(g, max, input, req, log)
    requires req'.unconsumed == req.unconsumed && req'.reader == req.reader && req'.received == req.received
        && req'.tunnel == req.tunnel && req'.head == req.head
    ensures Bytes(g, max, input, req', log)
  {
  }

  /** An upstream that refused is reported by closing: nothing more is written. */
  lemma SendRefused(g: Grammar, max: nat, sock: Socket, req: Request, out: Ostream, log: Log, tape: Tape)
    requires SendDue(g, max, sock, req, out, log, tape, Error)
    ensures Open(g, max, sock, req.(persistent := false), out.(state := Done), log, tape.(refused := out.state.AtHead?))
  {
    hide Bytes, Drained, Ordered;
    BytesSame(g, max, sock.input, req, req.(persistent := false), log);
  }

  /** A send of the handler is written now, or after the interim response that is being written. */
  lemma SendAccepted(g: Grammar, max: nat, sock: Socket, req: Request, out: Ostream, log: Log, tape: Tape,
                     state: SendState, refuse: bool)
    requires Open(g, max, sock, req, out, log, tape) && Submitted(log.stage)
        && (out.resp.NotStarted? || out.resp.CanSend?)
    ensures var out' := out.(resp := if state.InProgress? then Sending else Ended);
            if out.inflight then Open(g, max, sock, req, out'.(pendingFinal := Some(Pending(state, refuse))), log, tape)
            else SendDue(g, max, sock, req, out', log, tape, state)
  {
    hide Bytes, Drained, Ordered;
  }

  lemma InfoQueued(g: Grammar, max: nat, sock: Socket, req: Request, out: Ostream, log: Log, tape: Tape,
                   pending: seq<nat>)
    requires Open(g, max, sock, req, out, log, tape)
    ensures Open(g, max, sock, req, out.(pending := pending), log, tape)
  {
    hide Bytes, Drained, Ordered;
  }

  /** do_send_informational. */
  lemma InfoStarts(g: Grammar, max: nat, sock: Socket, req: Request, out: Ostream, log: Log, tape: Tape)
    requires Open(g, max, sock, req, out, log, tape) && Submitted(log.stage) && out.resp.NotStarted? && !out.inflight
    ensures sock.write.None?
    ensures Open(g, max, sock.(write := Some(WInfo)), req, out.(inflight := true, pending := []), log,
                 tape.(emitted := tape.emitted + Interims(out.pending)))
  {
    hide Bytes, Drained, Ordered;
    OrderedInterims(tape.emitted, out.pending);
  }

  /** An interim response has been written: the waiting send is due, or the handler may go on. */
  lemma InfoDone(g: Grammar, max: nat, sock: Socket, req: Request, out: Ostream, log: Log, tape: Tape)
    requires Open(g, max, sock, req, out, log, tape) && sock.write == Some(WInfo)
    ensures Submitted(log.stage)
    ensures var sock', out' := sock.(write := None), out.(inflight := false, pendingFinal := None);
            if out.pendingFinal.Some? then SendDue(g, max, sock', req, out', log, tape, out.pendingFinal.value.state)
            else Open(g, max, sock', req, out', log, tape) && out.resp.NotStarted?
  {
    hide Bytes, Drained, Ordered;
  }

  lemma NextDone(g: Grammar, max: nat, sock: Socket, req: Request, out: Ostream, log: Log, tape: Tape)
    requires Open(g, max, sock, req, out, log, tape) && sock.write == Some(WNext)
    ensures Open(g, max, sock.(write := None), req, out.(resp := CanSend), log, tape)
  {
    hide Bytes, Drained, Ordered;
  }

  lemma TrailerStarts(g: Grammar, max: nat, sock: Socket, req: Request, out: Ostream, log: Log, tape: Tape)
    requires Open(g, max, sock, req, out, log, tape) && sock.write == Some(WFinal)
    ensures Open(g, max, sock.(write := Some(WTrailers)), req, out, log, tape.(emitted := tape.emitted + [Payload]))
  {
    hide Bytes, Drained, Ordered;
    OrderedSnoc(tape.emitted, true, Payload);
  }

  /** The response is complete; without a body to wait for, the request is whole or the connection does not persist. */
  lemma ResponseDone(g: Grammar, max: nat, sock: Socket, req: Request, out: Ostream, log: Log, tape: Tape,
                     persistent: bool)
    requires Open(g, max, sock, req, out, log, tape) && (sock.write == Some(WFinal) || sock.write == Some(WTrailers))
    requires persistent ==> req.persistent
    ensures Open(g, max, sock.(write := None), req.(persistent := persistent), out.(state := Done), log, tape)
    ensures !req.proceed && persistent ==> log.stage.Whole? && req.unconsumed <= |sock.input|
    ensures req.tunnel ==> !persistent
  {
    hide Drained, Ordered, IsStream, Limited, PartWire, MsgWire;
    BytesSame(g, max, sock.input, req, req.(persistent := persistent), log);
  }

  // ---- Requests ----------------------------------------------------------------------------------------------

  /** As `Open`, but with input still to be looked at. */
  ghost predicate Ajar(g: Grammar, max: nat, sock: Socket, req: Request, out: Ostream, log: Log, tape: Tape) {
    && Bytes(g, max, sock.input, req, log) && Controlled(sock, req, out.resp, log) && Outgoing(out, sock.write, tape)
    && Answered(req.persistent, log, tape)
  }

  lemma Arrives(g: Grammar, max: nat, sock: Socket, req: Request, out: Ostream, log: Log, tape: Tape, chunk: string)
    requires Open(g, max, sock, req, out, log, tape) && !log.stage.Failed?
    ensures Ajar(g, max, sock.(input := sock.input + chunk), req, out, log.(total := log.total + chunk), tape)
  {
    hide Framed, Limited, PartWire, MsgWire, Output, Drained;
    FramedBound(g, log.stage, log.total, log.past, log.wire, log.prior, sock.input, req.unconsumed);
    MoreInput(g, log.stage, log.total, log.past, log.wire, log.prior, sock.input, req.unconsumed, chunk);
  }

  lemma FramedBound(g: Grammar, stage: Stage, total: string, past: string, wire: string, prior: seq<Msg>,
                    input: string, unconsumed: nat)
    requires Framed(g, stage, total, past, wire, prior, input, unconsumed) && !stage.Failed?
    ensures unconsumed <= |input|
  {
  }

  ghost function NextLog(log: Log): Log {
    Log(AwaitHead, log.total, log.past + log.wire, "", log.prior + [log.cur], Msg("", ""), "", "")
  }

  ghost function NextTape(tape: Tape): Tape { Tape([], false, tape.before + [tape.emitted]) }

  /** init_request and what follows it in cleanup_connection. */
  lemma NextRequest(g: Grammar, max: nat, sock: Socket, req: Request, out: Ostream, log: Log, tape: Tape)
    requires Open(g, max, sock, req, out, log, tape) && log.stage.Whole? && out.state.Done? && req.persistent
    ensures req.unconsumed <= |sock.input| && !req.proceed && req.reader.NoReader?
    ensures Ajar(g, max, sock.(input := sock.input[req.unconsumed..], reading := true), FRESH_REQUEST, FRESH_OSTREAM,
        NextLog(log), NextTape(tape))
    ensures Handed(NextLog(log)) == Handed(log)
  {
    hide Framed, MsgWire, Drained;
    FramedBound(g, log.stage, log.total, log.past, log.wire, log.prior, sock.input, req.unconsumed);
    FinishRequest(g, log.total, log.past, log.wire, log.prior, sock.input, req.unconsumed, log.cur);
  }

  lemma NothingToRead(g: Grammar, max: nat, sock: Socket, req: Request, out: Ostream, log: Log, tape: Tape)
    requires Ajar(g, max, sock, req, out, log, tape) && log.stage.AwaitHead? && Parse(g, sock.input).Incomplete?
        && |sock.input| < MAX_REQLEN
    ensures Open(g, max, sock, req, out, log, tape)
  {
  }

  /** The current request is not whole and can be given up. */
  ghost predicate Losing(g: Grammar, max: nat, sock: Socket, req: Request, out: Ostream, log: Log, tape: Tape) {
    && Framed(g, Failed, log.total, log.past, log.wire, log.prior, sock.input, req.unconsumed)
    && Limited(req.tunnel, NoReader, log.data, max) && req.received == |log.data|
    && (log.stage.AwaitHead? || log.stage.Buffering? || log.stage.Forwarding?) && sock.write != Some(WContinue)
    && Outgoing(out, sock.write, tape) && Answered(req.persistent, log, tape)
  }

  lemma AjarLosing(g: Grammar, max: nat, sock: Socket, req: Request, out: Ostream, log: Log, tape: Tape)
    requires Ajar(g, max, sock, req, out, log, tape) && sock.write != Some(WContinue)
    requires log.stage.AwaitHead? || log.stage.Buffering? || log.stage.Forwarding?
    ensures Losing(g, max, sock, req, out, log, tape)
  {
    hide IsStream, PartWire, MsgWire, Ordered, Output, Answered;
  }

  /** Nothing more is read, and the connection will not persist. */
  lemma Rejected(g: Grammar, max: nat, sock: Socket, req: Request, out: Ostream, log: Log, tape: Tape)
    requires Losing(g, max, sock, req, out, log, tape)
    ensures Open(g, max, sock.(reading := false), req.(proceed := false, reader := NoReader, persistent := false), out,
                 log.(stage := Failed), tape)
    ensures Handed(log.(stage := Failed)) == Handed(log) == log.prior && (out.resp.NotStarted? ==> out.state.AtHead?)
  {
    hide IsStream, PartWire, MsgWire, Ordered;
  }

  /** A request without a body is submitted. */
  lemma SubmitsWhole(g: Grammar, max: nat, sock: Socket, req: Request, out: Ostream, log: Log, tape: Tape,
                     persistent: bool)
    requires Ajar(g, max, sock, req, out, log, tape) && log.stage.AwaitHead? && Parse(g, sock.input).Complete?
        && Parse(g, sock.input).head.entity.NoEntity?
    ensures var n := Parse(g, sock.input).len; var head := sock.input[..n];
            && Open(g, max, sock.(reading := false), req.(unconsumed := n, head := head, persistent := persistent,
                                                         tunnel := false),
                    out, log.(stage := Whole, wire := head, cur := Msg(head, "")), tape)
  {
    hide Framed, MsgWire, Ordered, Parse;
    TakeWhole(g, log.total, log.past, log.prior, sock.input);
  }

  /** The head of a request with a body has been read. */
  lemma StartsBody(g: Grammar, max: nat, sock: Socket, req: Request, out: Ostream, log: Log, tape: Tape,
                   persistent: bool, tunnel: bool)
    requires Ajar(g, max, sock, req, out, log, tape) && log.stage.AwaitHead? && Parse(g, sock.input).Complete?
        && !(tunnel && persistent)
    requires var e := Parse(g, sock.input).head.entity; e.ChunkedEntity? || (e.Length? && e.n <= max)
    ensures var n := Parse(g, sock.input).len;
            Ajar(g, max, sock.(input := sock.input[n..]),
                 req.(unconsumed := 0, reader := BodyReader(Parse(g, sock.input).head.entity), head := sock.input[..n],
                      writeReq := ReadFirst, persistent := persistent, tunnel := tunnel),
                 out, log.(stage := Buffering, wire := sock.input[..n]), tape)
  {
    hide Framed, PartWire, MsgWire, Ordered, Parse;
    TakeHead(g, log.total, log.past, log.prior, sock.input, BodyReader(Parse(g, sock.input).head.entity));
  }

  /** 100 Continue is written before the body is looked at. */
  lemma Continues(g: Grammar, max: nat, sock: Socket, req: Request, out: Ostream, log: Log, tape: Tape)
    requires Ajar(g, max, sock, req, out, log, tape) && log.stage.Buffering? && sock.reading
    ensures Open(g, max, sock.(write := Some(WContinue), reading := false), req, out, log,
        tape.(emitted := tape.emitted + [Interim(100)]))
  {
    hide Bytes, Ordered;
    OrderedSnoc(tape.emitted, false, Interim(100));
  }

  lemma ContinueDone(g: Grammar, max: nat, sock: Socket, req: Request, out: Ostream, log: Log, tape: Tape)
    requires Open(g, max, sock, req, out, log, tape) && sock.write == Some(WContinue)
    ensures log.stage.Buffering? && Ajar(g, max, sock.(write := None, reading := true), req, out, log, tape)
    ensures out.state.AtHead? && out.resp.NotStarted?
  {
    hide Bytes, Ordered;
  }

  /** A tunnel is submitted with the payload that has come early. */
  lemma SubmitsTunnel(g: Grammar, max: nat, sock: Socket, req: Request, out: Ostream, log: Log, tape: Tape,
                      writeReq: WriteReq)
    requires Ajar(g, max, sock, req, out, log, tape) && log.stage.AwaitHead? && Parse(g, sock.input).Complete?
    ensures var n := Parse(g, sock.input).len; var early := sock.input[n..];
            Open(g, max, Socket("", false, sock.write),
                 req.(unconsumed := 0, reader := Endless, head := sock.input[..n], body := early, entity := early,
                      received := |early|, writeReq := writeReq, proceed := true, awaiting := true,
                      persistent := false, tunnel := true),
                 out, Shown(log, early).(stage := Forwarding, wire := sock.input, data := early), tape)
  {
    hide Framed, PartWire, MsgWire, Ordered, Parse;
    var n := Parse(g, sock.input).len;
    TakeHead(g, log.total, log.past, log.prior, sock.input, Endless);
    Consume(g, Buffering, log.total, log.past, sock.input[..n], log.prior, sock.input[n..], |sock.input| - n);
    MoreEndless(g, sock.input[..n], "", sock.input[n..]);
    assert sock.input[n..][..|sock.input| - n] == sock.input[n..] && sock.input[..n] + sock.input[n..] == sock.input;
    assert sock.input[n..][|sock.input| - n..] == "" && "" + sock.input[n..] == sock.input[n..];
    FramedStage(g, Buffering, Forwarding, log.total, log.past, sock.input, log.prior, "", 0);
  }

  lemma FramedStage(g: Grammar, stage: Stage, stage': Stage, total: string, past: string, wire: string,
                    prior: seq<Msg>, input: string, unconsumed: nat)
    requires Framed(g, stage, total, past, wire, prior, input, unconsumed) && !stage.Failed?
    ensures Framed(g, stage', total, past, wire, prior, input, unconsumed)
  {
  }

  // ---- Bodies --------------------------------------------------------------------------------------------------

  /** `k` bytes of input give `more` of the body; either they complete it, or they are all there is and leave the
      reader at `reader`. */
  ghost predicate Yields(g: Grammar, wire: string, data: string, input: string, k: nat, more: string, reader: Reader,
                         complete: bool) {
    k <= |input| &&
    if complete then MsgWire(g, wire + input[..k], Msg(HeadText(g, wire), data + more))
    else k == |input| && PartWire(g, wire + input[..k], reader, data + more) && Partial(reader, data + more)
         && HeadText(g, wire + input[..k]) == HeadText(g, wire)
  }

  ghost function Taken(log: Log, input: string, k: nat, more: string): Log
    requires k <= |input|
  {
    log.(wire := log.wire + input[..k], data := log.data + more)
  }

  /** The handler finds `entity` in the request. */
  ghost function Shown(log: Log, entity: string): Log { log.(given := log.given + entity) }

  /** What is shown is all of the body that has not been shown. */
  lemma ShownIsBody(sock: Socket, req: Request, resp: Resp, log: Log, more: string)
    requires Controlled(sock, req, resp, log) && (log.stage.Buffering? || log.stage.Forwarding?) && sock.reading
    ensures log.given + (req.body + more) == log.data + more && EndsWith(log.data + more, req.body + more)
    ensures !req.writeReq.Streaming? ==> log.stage.Buffering? && req.body + more == log.data + more
  {
    assert log.stage.Buffering? ==> "" + (log.data + more) == log.data + more;
    assert log.stage.Forwarding? ==> "" + more == more;
  }

  /** Reading a body, with input to look at. */
  ghost predicate InEntity(g: Grammar, max: nat, sock: Socket, req: Request, out: Ostream, log: Log, tape: Tape) {
    Ajar(g, max, sock, req, out, log, tape) && (log.stage.Buffering? || log.stage.Forwarding?) && sock.reading
  }

  lemma TakenFramed(g: Grammar, max: nat, sock: Socket, req: Request, log: Log, k: nat, more: string, stage: Stage)
    requires Bytes(g, max, sock.input, req, log) && (log.stage.Buffering? || log.stage.Forwarding?) && k <= |sock.input|
    ensures Framed(g, stage, log.total, log.past, log.wire + sock.input[..k], log.prior, sock.input[k..], 0)
        && req.unconsumed == 0
  {
    hide IsStream, PartWire;
    Consume(g, log.stage, log.total, log.past, log.wire, log.prior, sock.input, k);
    FramedStage(g, log.stage, stage, log.total, log.past, log.wire + sock.input[..k], log.prior, sock.input[k..], 0);
  }

  /** Framing without data is dropped. */
  lemma Absorbed(g: Grammar, max: nat, sock: Socket, req: Request, out: Ostream, log: Log, tape: Tape, reader: Reader)
    requires InEntity(g, max, sock, req, out, log, tape) && Yields(g, log.wire, log.data, sock.input, |sock.input|, "",
        reader, false)
    requires Limited(req.tunnel, reader, log.data, max)
    ensures Open(g, max, sock.(input := ""), req.(reader := reader), out, Taken(log, sock.input, |sock.input|, ""),
        tape)
  {
    hide Framed, PartWire, MsgWire, Ordered;
    TakenFramed(g, max, sock, req, log, |sock.input|, "", log.stage);
    assert sock.input[|sock.input|..] == "";
    assert log.data + "" == log.data;
  }

  /** The bytes of a part of a body. */
  lemma PartBytes(g: Grammar, max: nat, sock: Socket, req: Request, log: Log, more: string, reader: Reader,
                  req': Request, log': Log)
    requires Bytes(g, max, sock.input, req, log) && (log.stage.Buffering? || log.stage.Forwarding?)
    requires Yields(g, log.wire, log.data, sock.input, |sock.input|, more, reader, false)
        && Limited(req.tunnel, reader, log.data + more, max)
    requires req'.reader == reader && req'.received == req.received + |more| && req'.head == req.head
        && req'.tunnel == req.tunnel && req'.unconsumed == req.unconsumed
    requires log' == Taken(log, sock.input, |sock.input|, more).(stage := log'.stage, given := log'.given)
    requires log'.stage.Buffering? || log'.stage.Forwarding?
    ensures Bytes(g, max, "", req', log') && Partial(reader, log'.data)
  {
    hide Framed, PartWire, MsgWire, Limited, HeadText, Parse;
    TakenFramed(g, max, sock, req, log, |sock.input|, more, log'.stage);
    assert sock.input[|sock.input|..] == "";
  }

  /** Part of a body is kept until the rest has come. */
  lemma Collects(g: Grammar, max: nat, sock: Socket, req: Request, out: Ostream, log: Log, tape: Tape, more: string,
                 reader: Reader)
    requires InEntity(g, max, sock, req, out, log, tape) && log.stage.Buffering?
        && Yields(g, log.wire, log.data, sock.input, |sock.input|, more, reader, false)
    requires Limited(req.tunnel, reader, log.data + more, max)
    ensures Open(g, max, sock.(input := ""),
                 req.(reader := reader, body := req.body + more, entity := req.body + more,
                      received := req.received + |more|, writeReq := NonStreaming),
                 out, Taken(log, sock.input, |sock.input|, more), tape)
  {
    hide Bytes, Yields, Partial, Limited, Ordered, Output;
    var req' := req.(reader := reader, body := req.body + more, entity := req.body + more,
                     received := req.received + |more|, writeReq := NonStreaming);
    PartBytes(g, max, sock, req, log, more, reader, req', Taken(log, sock.input, |sock.input|, more));
  }

  /** Part of a body goes to the handler, the first part with the head; reading stops until the handler proceeds. */
  lemma Forwards(g: Grammar, max: nat, sock: Socket, req: Request, out: Ostream, log: Log, tape: Tape, more: string,
                 reader: Reader, writeReq: WriteReq)
    requires InEntity(g, max, sock, req, out, log, tape) && Yields(g, log.wire, log.data, sock.input, |sock.input|,
        more, reader, false)
    requires Limited(req.tunnel, reader, log.data + more, max)
    ensures Open(g, max, sock.(input := "", reading := false),
                 req.(reader := reader, body := req.body + more, entity := req.body + more,
                      received := req.received + |more|, writeReq := writeReq, proceed := true, awaiting := true), out,
                 Shown(Taken(log, sock.input, |sock.input|, more), req.body + more).(stage := Forwarding), tape)
  {
    hide Bytes, Yields, Partial, Limited, Ordered, Output, EndsWith;
    var req' := req.(reader := reader, body := req.body + more, entity := req.body + more,
                     received := req.received + |more|, writeReq := writeReq, proceed := true, awaiting := true);
    var log' := Shown(Taken(log, sock.input, |sock.input|, more), req.body + more).(stage := Forwarding);
    PartBytes(g, max, sock, req, log, more, reader, req', log');
    ShownIsBody(sock, req, out.resp, log, more);
  }

  /** The body is complete; what follows it stays in the input. */
  lemma Completes(g: Grammar, max: nat, sock: Socket, req: Request, out: Ostream, log: Log, tape: Tape, k: nat,
                  more: string, writeReq: WriteReq)
    requires writeReq.Streaming? <==> req.writeReq.Streaming?
    requires InEntity(g, max, sock, req, out, log, tape) && Yields(g, log.wire, log.data, sock.input, k, more,
        NoReader, true)
    requires Limited(req.tunnel, NoReader, log.data + more, max)
    ensures req.unconsumed == 0
    ensures Open(g, max, sock.(input := sock.input[k..], reading := false),
                 req.(reader := NoReader, body := req.body + more, entity := req.body + more,
                      received := req.received + |more|, writeReq := writeReq, proceed := false, awaiting := false),
                 out, Shown(Taken(log, sock.input, k, more), req.body + more)
                        .(stage := Whole, cur := Msg(req.head, log.given + (req.body + more))), tape)
  {
    hide Framed, PartWire, MsgWire, Ordered, Parse, Output, EndsWith, Limited;
    TakenFramed(g, max, sock, req, log, k, more, Whole);
    ShownIsBody(sock, req, out.resp, log, more);
  }

  /** A part of a body that the handler does not take. */
  lemma RefusedPart(g: Grammar, max: nat, sock: Socket, req: Request, out: Ostream, log: Log, tape: Tape, k: nat,
                    more: string, reader: Reader)
    requires InEntity(g, max, sock, req, out, log, tape) && sock.write != Some(WContinue) && k <= |sock.input|
    requires Limited(req.tunnel, reader, log.data + more, max)
    ensures Losing(g, max, sock.(input := sock.input[k..], reading := false),
                   req.(body := req.body + more, entity := req.body + more, received := req.received + |more|), out,
                   Taken(log, sock.input, k, more), tape)
  {
    hide IsStream, PartWire, MsgWire, Ordered, Output;
  }

  /** The handler takes more of the body. */
  lemma Proceeds(g: Grammar, max: nat, sock: Socket, req: Request, out: Ostream, log: Log, tape: Tape)
    requires Open(g, max, sock, req, out, log, tape) && log.stage.Forwarding?
    ensures req.awaiting ==> req.entity == req.body
    ensures Open(g, max, sock.(reading := true), req.(body := "", writeReq := Streaming, awaiting := false), out, log,
        tape)
  {
    hide Ordered;
    BytesSame(g, max, sock.input, req, req.(body := "", writeReq := Streaming, awaiting := false), log);
  }

  // ---- Small steps of the proofs -------------------------------------------------------------------------------

  /** While a head is awaited nothing has been sent, and what has been counted is nothing. */
  lemma AwaitOut(g: Grammar, max: nat, sock: Socket, req: Request, out: Ostream, log: Log, tape: Tape)
    requires Ajar(g, max, sock, req, out, log, tape) && log.stage.AwaitHead?
    ensures out.resp.NotStarted? && !out.inflight && out.state.AtHead? && req.received == 0 && sock.write.None?
  {
    hide Framed, Ordered;
  }

  lemma StaysFailed(g: Grammar, max: nat, sock: Socket, req: Request, out: Ostream, log: Log, tape: Tape)
    requires Open(g, max, sock, req, out, log, tape) && log.stage.Failed?
    ensures !sock.reading
  {
  }

  lemma ReadingStages(g: Grammar, max: nat, sock: Socket, req: Request, out: Ostream, log: Log, tape: Tape)
    requires Open(g, max, sock, req, out, log, tape) && sock.reading
    ensures log.stage.AwaitHead? || log.stage.Buffering? || log.stage.Forwarding?
    ensures log.stage.AwaitHead? <==> req.reader.NoReader?
  {
    hide Framed, MsgWire, Output, Drained;
  }

  lemma OpenAjar(g: Grammar, max: nat, sock: Socket, req: Request, out: Ostream, log: Log, tape: Tape)
    requires Open(g, max, sock, req, out, log, tape)
    ensures Ajar(g, max, sock, req, out, log, tape)
  {
  }

  lemma InEntityStage(g: Grammar, max: nat, sock: Socket, req: Request, out: Ostream, log: Log, tape: Tape)
    requires InEntity(g, max, sock, req, out, log, tape)
    ensures (log.stage.Buffering? || log.stage.Forwarding?) && sock.write != Some(WContinue) && !req.awaiting
    ensures log.stage.Forwarding? ==> req.writeReq.Streaming?
    ensures log.stage.Buffering? ==> req.writeReq.ReadFirst? || req.writeReq.NonStreaming?
    ensures log.stage.Buffering? ==> out.resp.NotStarted?
  {
    hide Bytes, Output;
  }

  lemma YieldsAll(g: Grammar, wire: string, data: string, input: string, k: nat, more: string, reader: Reader,
                  complete: bool)
    requires Yields(g, wire, data, input, k, more, reader, complete)
    ensures k <= |input| && (!complete ==> k == |input|)
  {
  }

  lemma ReaderSet(g: Grammar, wire: string, reader: Reader, data: string)
    requires PartWire(g, wire, reader, data)
    ensures !reader.NoReader?
  {
  }

  lemma FixedBound(g: Grammar, wire: string, n: nat, data: string)
    requires PartWire(g, wire, Fixed(n), data)
    ensures |data| <= n
  {
  }

  lemma FixedYields(g: Grammar, max: nat, wire: string, n: nat, data: string, input: string, k: nat, complete: bool)
    requires PartWire(g, wire, Fixed(n), data) && k <= |input| && |data| + k <= n
        && (if complete then |data| + k == n else k == |input| && |data| + k < n)
    ensures Yields(g, wire, data, input, k, input[..k], if complete then NoReader else Fixed(n), complete)
    ensures !complete ==> input[..k] == input
  {
    MoreFixed(g, wire, n, data, input[..k]);
  }

  lemma EndlessYields(g: Grammar, wire: string, data: string, input: string)
    requires PartWire(g, wire, Endless, data)
    ensures Yields(g, wire, data, input, |input|, input, Endless, false)
  {
    MoreEndless(g, wire, data, input);
    assert input[..|input|] == input;
  }

  lemma ChunksYield(g: Grammar, wire: string, reader: Reader, data: string, input: string)
    requires reader.Chunks? && PartWire(g, wire, reader, data)
    ensures var r := ChunkDecoder.Run(reader.st, input);
            && |r.rest| <= |input|
            && (r.st.Complete? ==> Yields(g, wire, data, input, |input| - |r.rest|, r.data, NoReader, true))
            && (!ChunkDecoder.Ended(r.st) ==>
                  Yields(g, wire, data, input, |input|, r.data, Onward(reader, input), false))
  {
    hide PartWire, MsgWire, ChunkDecoder.Run;
    MoreChunks(g, wire, reader, data, input);
    assert input[..|input|] == input;
  }

  lemma NothingCame(g: Grammar, max: nat, sock: Socket, req: Request, out: Ostream, log: Log, tape: Tape)
    requires InEntity(g, max, sock, req, out, log, tape) && sock.input == "" && Partial(req.reader, log.data)
    ensures Open(g, max, sock, req, out, log, tape) && !BodyEnds(req.reader, req.received, sock.input)
  {
  }

  lemma NoInput(g: Grammar)
    ensures Parse(g, "").Incomplete?
  {
  }

  lemma WrittenSame(out: Ostream, resp: Resp, tape: Tape)
    ensures Written(out.(resp := resp), tape) == Written(out, tape)
        && Written(out.(resp := resp, inflight := false, pendingFinal := None), tape) == Written(out, tape)
  {
  }

  lemma OpenBytes(g: Grammar, max: nat, sock: Socket, req: Request, out: Ostream, log: Log, tape: Tape)
    requires Open(g, max, sock, req, out, log, tape)
    ensures Bytes(g, max, sock.input, req, log)
  {
  }

  // ---- What holds at every step ---------------------------------------------------------------------------------

  /** The connection reads, and nothing it has read can be handed on yet; in a tunnel there is no end to hand on. */
  ghost predicate CaughtUp(sock: Socket, req: Request, log: Log) {
    || log.stage.AwaitHead?
    || (((log.stage.Buffering? && sock.reading) || log.stage.Forwarding?) && !req.reader.Endless?)
  }

  lemma PartIsNotFirst(g: Grammar, wire: string, reader: Reader, data: string)
    requires PartWire(g, wire, reader, data) && Partial(reader, data) && !reader.Endless?
    ensures First(g, wire).None?
  {
    hide Parse, ChunkDecoder.Run;
  }

  lemma DecomposeNothing(g: Grammar, s: string)
    requires First(g, s).None?
    ensures Decompose(g, s) == []
  {
  }

  /** What follows the earlier requests holds no whole request. */
  lemma NothingWhole(g: Grammar, max: nat, sock: Socket, req: Request, out: Ostream, log: Log, tape: Tape)
    requires Open(g, max, sock, req, out, log, tape) && CaughtUp(sock, req, log)
    ensures log.total == log.past + (log.wire + sock.input) && First(g, log.wire + sock.input).None?
  {
    hide IsStream, Output, PartWire, Parse, HeadText, Answered;
    assert sock.input[0..] == sock.input && "" + sock.input == sock.input && log.wire + "" == log.wire;
    assert log.past + log.wire + sock.input == log.past + (log.wire + sock.input);
    if !log.stage.AwaitHead? { PartIsNotFirst(g, log.wire, req.reader, log.data); }
  }

  /** However the bytes were cut up into reads, the requests handlers have found whole, head and body, are the first of
      the sequential decomposition of all that was received; they are all of them whenever the connection reads. */
  lemma HandedInOrder(g: Grammar, max: nat, closed: bool, sock: Socket, req: Request, out: Ostream, log: Log,
                      tape: Tape)
    requires if closed then Over(g, log) else Open(g, max, sock, req, out, log, tape)
    ensures Handed(log) <= Decompose(g, log.total)
    ensures !closed && CaughtUp(sock, req, log) ==> Handed(log) == Decompose(g, log.total)
    ensures !closed && log.stage.Whole? ==>
        log.total == log.past + log.wire + sock.input[req.unconsumed..]
        && Handed(log) == Decompose(g, log.past + log.wire)
  {
    hide IsStream, MsgWire, Decompose, First, Output, PartWire, Answered;
    if !closed && log.stage.Whole? {
      StreamSnoc(g, log.past, log.prior, log.wire, log.cur);
      DecomposeStream(g, log.past + log.wire, log.prior + [log.cur], sock.input[req.unconsumed..]);
      DecomposeStream(g, log.past + log.wire, log.prior + [log.cur], "");
      NoRequest(g);
      assert log.past + log.wire + "" == log.past + log.wire;
    } else {
      var rest := log.total[|log.past|..];
      assert log.total == log.past + rest;
      DecomposeStream(g, log.past, log.prior, rest);
      if !closed && CaughtUp(sock, req, log) {
        NothingWhole(g, max, sock, req, out, log, tape);
        DecomposeNothing(g, rest);
      }
    }
  }

  lemma NoRequest(g: Grammar)
    ensures Decompose(g, "") == []
  {
  }

  /** Two connections that have received the same bytes, in whatever pieces, and are reading have handed on the same
      requests. */
  lemma SplitInvariant(g: Grammar, max: nat, sock: Socket, req: Request, out: Ostream, log: Log, tape: Tape,
                       max': nat, sock': Socket, req': Request, out': Ostream, log': Log, tape': Tape)
    requires Open(g, max, sock, req, out, log, tape) && Open(g, max', sock', req', out', log', tape')
    requires CaughtUp(sock, req, log) && CaughtUp(sock', req', log') && log.total == log'.total
    ensures Handed(log) == Handed(log')
  {
    hide Open, Handed, Decompose;
    HandedInOrder(g, max, false, sock, req, out, log, tape);
    HandedInOrder(g, max', false, sock', req', out', log', tape');
  }

  /** Whether the next bytes of a body are refused, with which status, and whether they end it depends on the bytes of
      the request alone, not on how the earlier ones were cut. */
  lemma BodyByBytes(g: Grammar, max: nat, sock: Socket, req: Request, out: Ostream, log: Log, tape: Tape, chunk: string)
    requires Open(g, max, sock, req, out, log, tape) && sock.reading && !req.reader.NoReader? && !req.reader.Endless?
    ensures var p := Parse(g, log.wire + chunk);
            && p.Complete? && log.total + chunk == log.past + (log.wire + chunk)
            && var body := (log.wire + chunk)[p.len..];
               && EntityStatus(req.reader, req.received, chunk, max) ==
                  (if chunk == "" then None else EntityStatus(BodyReader(p.head.entity), 0, body, max))
               && BodyEnds(req.reader, req.received, chunk) == BodyEnds(BodyReader(p.head.entity), 0, body)
  {
    hide IsStream, Output, Parse, HeadText, Answered, ChunkDecoder.Run, ChunkDecoder.Wasteful;
    ReadingStages(g, max, sock, req, out, log, tape);
    assert sock.input[0..] == "";
    assert log.past + log.wire + "" == log.past + log.wire;
    assert log.past + log.wire + chunk == log.past + (log.wire + chunk);
    HeadStable(g, log.wire, chunk);
    var n := Parse(g, log.wire).len;
    assert (log.wire + chunk)[n..] == log.wire[n..] + chunk;
    if req.reader.Chunks? { ChunkDecoder.RunAppend(ChunkDecoder.START, log.wire[n..], chunk); }
  }

  /** Two connections in the body of the same request refuse the same bytes with the same status. */
  lemma RefusedAlike(g: Grammar, max: nat, sock: Socket, req: Request, out: Ostream, log: Log, tape: Tape,
                     sock': Socket, req': Request, out': Ostream, log': Log, tape': Tape, chunk: string, chunk': string)
    requires Open(g, max, sock, req, out, log, tape) && sock.reading && !req.reader.NoReader? && !req.reader.Endless?
    requires Open(g, max, sock', req', out', log', tape') && sock'.reading
        && !req'.reader.NoReader? && !req'.reader.Endless?
    requires log.past == log'.past && log.total + chunk == log'.total + chunk' && chunk != "" && chunk' != ""
    ensures EntityStatus(req.reader, req.received, chunk, max) == EntityStatus(req'.reader, req'.received, chunk', max)
    ensures BodyEnds(req.reader, req.received, chunk) == BodyEnds(req'.reader, req'.received, chunk')
  {
    hide Open, EntityStatus, BodyEnds, Parse;
    BodyByBytes(g, max, sock, req, out, log, tape, chunk);
    BodyByBytes(g, max, sock', req', out', log', tape', chunk');
    assert log.wire + chunk == (log.past + (log.wire + chunk))[|log.past|..] == log'.wire + chunk';
  }

  /** A request handed on with its body in pieces is the next of the decomposition: the pieces so far are the body of
      its bytes so far, and no byte of them is left in the input. */
  lemma ForwardedSoFar(g: Grammar, max: nat, sock: Socket, req: Request, out: Ostream, log: Log, tape: Tape)
    requires Open(g, max, sock, req, out, log, tape) && log.stage.Forwarding?
    ensures log.total == log.past + log.wire && PartWire(g, log.wire, req.reader, log.given)
        && req.head == HeadText(g, log.wire) && IsStream(g, log.past, log.prior)
    ensures req.awaiting ==> EndsWith(log.given, req.entity)
  {
    hide IsStream, PartWire, Output, Answered, HeadText, Parse;
    assert sock.input[0..] == "";
  }

  /** Interim responses, one final head, and data after it. */
  ghost predicate OneHead(e: seq<Emission>) {
    exists k :: 0 <= k < |e| && e[k] == FinalHead && (forall i :: 0 <= i < k ==> e[i].Interim?)
        && forall i :: k < i < |e| ==> e[i].Payload?
  }

  ghost predicate AllInterim(e: seq<Emission>) { forall i :: 0 <= i < |e| ==> e[i].Interim? }

  lemma OneHeadSnoc(e: seq<Emission>, x: Emission)
    ensures AllInterim(e + [x]) <==> AllInterim(e) && x.Interim?
    ensures OneHead(e + [x]) <==> (AllInterim(e) && x.FinalHead?) || (OneHead(e) && x.Payload?)
  {
    var s, n := e + [x], |e|;
    assert s[n] == x && forall i :: 0 <= i < n ==> s[i] == e[i];
    assert AllInterim(s) ==> forall i :: 0 <= i < n ==> s[i].Interim?;
    if OneHead(s) {
      var k :| 0 <= k < |s| && s[k] == FinalHead && (forall i :: 0 <= i < k ==> s[i].Interim?)
          && forall i :: k < i < |s| ==> s[i].Payload?;
      if k < n { assert e[k] == FinalHead && OneHead(e); }
    }
    if OneHead(e) && x.Payload? {
      var k :| 0 <= k < |e| && e[k] == FinalHead && (forall i :: 0 <= i < k ==> e[i].Interim?)
          && forall i :: k < i < |e| ==> e[i].Payload?;
      assert s[k] == FinalHead;
    }
    if AllInterim(e) && x.FinalHead? { assert s[n] == FinalHead; }
  }

  /** What `Ordered` means. */
  lemma {:induction false} OrderedMeans(e: seq<Emission>, headSent: bool)
    ensures Ordered(e, headSent) <==> if headSent then OneHead(e) else AllInterim(e)
    decreases |e|
  {
    if e != [] {
      var n := |e| - 1;
      OrderedMeans(e[..n], true);
      OrderedMeans(e[..n], false);
      assert e == e[..n] + [e[n]];
      OneHeadSnoc(e[..n], e[n]);
    }
  }

  /** Persistence, tunnels, limits, and what is written for each request. */
  lemma AlwaysSafe(g: Grammar, max: nat, sock: Socket, req: Request, out: Ostream, log: Log, tape: Tape)
    requires Open(g, max, sock, req, out, log, tape)
    ensures !(req.tunnel && req.persistent) && (!req.tunnel ==> req.received <= max)
    ensures out.state.Done? && req.persistent && !req.proceed ==> req.reader.NoReader?
    ensures if out.state.AtHead? || tape.refused then AllInterim(tape.emitted) else OneHead(tape.emitted)
    ensures |tape.before| == |log.prior| && forall e :: e in tape.before ==> OneHead(e)
  {
    hide IsStream, PartWire, MsgWire, Ordered, OneHead, AllInterim;
    OrderedMeans(tape.emitted, !out.state.AtHead? && !tape.refused);
    forall e | e in tape.before ensures OneHead(e) { OrderedMeans(e, true); }
  }

  /** A handler has the request, or the connection answers for it. */
  predicate InHand(sock: Socket, req: Request) { req.proceed || (req.reader.NoReader? && !sock.reading) }

  lemma HandStages(g: Grammar, max: nat, sock: Socket, req: Request, out: Ostream, log: Log, tape: Tape)
    requires Open(g, max, sock, req, out, log, tape)
    ensures InHand(sock, req) <==> Submitted(log.stage)
    ensures (req.proceed <==> log.stage.Forwarding?) && (req.tunnel ==> !req.persistent)
  {
    hide IsStream, MsgWire, Output, Answered, Drained;
  }

  lemma InfoWrite(g: Grammar, max: nat, sock: Socket, req: Request, out: Ostream, log: Log, tape: Tape)
    requires Open(g, max, sock, req, out, log, tape) && out.inflight
    ensures sock.write == Some(WInfo) && out.state.AtHead?
  {
    hide Bytes, Controlled, Ordered, Answered, Drained;
  }

  lemma WholeIsShown(g: Grammar, max: nat, sock: Socket, req: Request, out: Ostream, log: Log, tape: Tape)
    requires Open(g, max, sock, req, out, log, tape) && log.stage.Whole?
    ensures log.cur == Msg(req.head, log.given) && EndsWith(log.given, req.entity)
    ensures !req.writeReq.Streaming? ==> req.entity == log.given
  {
    hide Framed, MsgWire, Output, Answered, Drained;
  }

  // ---- Events ---------------------------------------------------------------------------------------------------

  /** What can happen to a connection: bytes come or reading fails, a write ends, the handler takes more of the body,
      sends, sends an interim response, or time runs out. */
  datatype Event =
      Read(chunk: string, err: bool, env: Env) | ContinueSent(err: bool, env: Env) | Proceed(err: bool)
    | Send(state: SendState, refuse: bool) | Inform(n: nat) | InfoSent(err: bool) | NextSent(err: bool)
    | Sent(err: bool, trailer: bool, env: Env) | TrailersSent(err: bool, env: Env) | Timeout

  function Incoming(e: Event): string { if e.Read? && !e.err then e.chunk else "" }

  /** A connection at one moment. */
  datatype Moment = Moment(closed: bool, sock: Socket, req: Request, out: Ostream, status: nat, log: Log, tape: Tape)

  const START := Moment(false, Socket("", true, None), FRESH_REQUEST, FRESH_OSTREAM, 0,
                        Log(AwaitHead, "", "", "", [], Msg("", ""), "", ""), Tape([], false, []))

  /** An event can take place: its handler is installed, or the contract of request handlers allows it. */
  predicate Enables(closed: bool, sock: Socket, req: Request, resp: Resp, e: Event) {
    !closed &&
    match e
    case Read(_, _, _) => sock.reading
    case ContinueSent(_, _) => sock.write == Some(WContinue)
    case Proceed(err) => req.proceed && (!err ==> req.awaiting)
    case Send(_, _) => InHand(sock, req) && (resp.NotStarted? || resp.CanSend?)
    case Inform(_) => InHand(sock, req) && resp.NotStarted?
    case InfoSent(_) => sock.write == Some(WInfo)
    case NextSent(_) => sock.write == Some(WNext)
    case Sent(_, _, _) => sock.write == Some(WFinal)
    case TrailersSent(_, _) => sock.write == Some(WTrailers)
    case Timeout => true
  }

  ghost predicate Possible(s: Moment, e: Event) { Enables(s.closed, s.sock, s.req, s.out.resp, e) }

  /** Bytes come: what they complete is handed on, what they break is refused. */
  ghost predicate AfterRead(g: Grammar, max: nat, s: Moment, chunk: string, err: bool, env: Env, s': Moment) {
    var input := s.sock.input + chunk;
    var bad, ends := ReadStatus(g, s.req, input, env.shutdown, max), ReadEnds(g, s.req, input, env.shutdown);
    && (err ==> s'.closed)
    && (!err && Lucky(env) && !s.out.state.Done? ==>
          if bad.None? then !s'.closed && !s'.log.stage.Failed? else s'.closed || s'.log.stage.Failed?)
    && (!err && Lucky(env) && bad.None? && !s.out.state.Done? ==> (s'.log.stage.Whole? <==> ends))
    && (!err && Lucky(env) && bad.None? && ends ==> |s.log.prior| < |Handed(s'.log)|)
  }

  /** The reader takes what there is of the body: it is refused, ends the request, or leaves it to go on. */
  ghost predicate AfterEntity(max: nat, s: Moment, env: Env, s': Moment) {
    var bad := EntityStatus(s.req.reader, s.req.received, s.sock.input, max);
    var ends := BodyEnds(s.req.reader, s.req.received, s.sock.input);
    && s'.log.total == s.log.total && Handed(s.log) <= Handed(s'.log) && s.log.prior <= s'.log.prior
    && (!s'.closed && s'.log.stage.Buffering? && !s.out.state.Done? ==> s'.sock.reading)
    && (Lucky(env) && !s.out.state.Done? ==>
          && !s'.closed && (s'.log.stage.Failed? <==> bad.Some?) && s'.log.prior == s.log.prior
          && (bad.None? ==> s'.req.persistent == s.req.persistent && s'.req.tunnel == s.req.tunnel)
          && (bad.None? ==> (s'.log.stage.Whole? <==> ends)))
    && (Lucky(env) && bad.None? && ends ==> |s.log.prior| < |Handed(s'.log)|)
    && (Lucky(env) && s.out.resp.NotStarted? && bad.Some? ==> s'.status == bad.value)
  }

  ghost predicate AfterContinue(max: nat, s: Moment, err: bool, env: Env, s': Moment) {
    var bad := EntityStatus(s.req.reader, s.req.received, s.sock.input, max);
    && (err ==> s'.closed) && (!s'.closed && s'.log.stage.Buffering? ==> s'.sock.reading)
    && (!err && Lucky(env) ==>
          && !s'.closed && (s'.log.stage.Failed? <==> bad.Some?) && (bad.Some? ==> s'.status == bad.value)
          && (bad.None? ==>
                (s'.log.stage.Whole? <==> BodyEnds(s.req.reader, s.req.received, s.sock.input))))
  }

  ghost predicate AfterProceed(s: Moment, err: bool, s': Moment) {
    if err then
      && (s'.closed <==> s.out.state.Done?) && (!s'.closed ==> s'.log.stage.Failed? && !s'.req.persistent)
      && (s.out.resp.NotStarted? ==>
            s'.status == 502 && s'.tape == if s.out.inflight then s.tape else Written(s.out, s.tape))
    else
      !s'.closed && s'.sock.reading && s'.req.body == "" && !s'.req.awaiting && s'.log == s.log
  }

  ghost predicate AfterSend(s: Moment, state: SendState, refuse: bool, s': Moment) {
    && (!s'.closed ==> s'.log == s.log && s'.out.resp == if state.InProgress? then Sending else Ended)
    && if s.out.inflight then
         !s'.closed && s'.tape == s.tape && s'.sock == s.sock && s'.out.pendingFinal == Some(Pending(state, refuse))
       else if state.Error? && refuse then
         s'.tape.emitted == s.tape.emitted && (s'.closed <==> s.req.tunnel || !s.req.proceed)
       else
         && !s'.closed && s'.tape == Written(s.out, s.tape)
         && s'.sock.write == Some(if state.InProgress? then WNext else WFinal)
  }

  ghost predicate AfterInform(s: Moment, n: nat, s': Moment) {
    && !s'.closed && s'.log == s.log && s'.out.inflight
    && if s.out.inflight then s'.tape == s.tape && s'.out.pending == s.out.pending + [n]
       else s'.out.pending == [] && s'.tape.emitted == s.tape.emitted + Interims(s.out.pending + [n])
  }

  ghost predicate AfterInfoSent(s: Moment, err: bool, s': Moment) {
    if err then s'.closed else
    match s.out.pendingFinal
    case None =>
      && !s'.closed && s'.out.pending == [] && (s'.out.inflight <==> s.out.pending != [])
      && s'.tape.emitted == s.tape.emitted + Interims(s.out.pending)
    case Some(p) =>
      && (!s'.closed ==> !s'.out.inflight && s'.out.pendingFinal.None?)
      && if p.state.Error? && p.refused then
           s'.tape.emitted == s.tape.emitted && (s'.closed <==> s.req.tunnel || !s.req.proceed)
         else !s'.closed && s'.tape == Written(s.out, s.tape)
  }

  /** The response is complete: a trailer follows, the connection closes, or the rest of the body or the next request
      is taken up. */
  ghost predicate AfterSent(g: Grammar, max: nat, s: Moment, err: bool, trailer: bool, tunnels: bool, env: Env,
                            s': Moment) {
    if !err && trailer then
      !s'.closed && s'.log == s.log && s'.tape.emitted == s.tape.emitted + [Payload]
    else if s.req.proceed && !(tunnels && s.req.tunnel) then
      && !s'.closed && s'.out.state.Done? && s'.sock.write.None? && s'.log == s.log && s'.tape == s.tape
      && s'.req.persistent == (s.req.persistent && !err)
    else if err || !s.req.persistent then
      s'.closed
    else
      && Handed(s.log) <= s'.log.prior
      && (Lucky(env) && NextStatus(g, s.req, s.sock.input, env.shutdown, max).None? ==>
            !s'.closed && !s'.log.stage.Failed?)
  }

  ghost predicate After(g: Grammar, max: nat, s: Moment, e: Event, s': Moment) {
    match e
    case Read(chunk, err, env) => AfterRead(g, max, s, chunk, err, env, s')
    case ContinueSent(err, env) => AfterContinue(max, s, err, env, s')
    case Proceed(err) => AfterProceed(s, err, s')
    case Send(state, refuse) => AfterSend(s, state, refuse, s')
    case Inform(n) => AfterInform(s, n, s')
    case InfoSent(err) => AfterInfoSent(s, err, s')
    case NextSent(err) =>
      s'.tape == s.tape && if err then s'.closed else !s'.closed && s'.out.resp.CanSend? && s'.req == s.req
    case Sent(err, trailer, env) => AfterSent(g, max, s, err, trailer, true, env, s')
    case TrailersSent(err, env) => AfterSent(g, max, s, err, false, false, env, s')
    case Timeout => s'.closed
  }

  /** What an event makes of a connection; what cannot take place changes nothing. */
  ghost predicate Follows(g: Grammar, max: nat, s: Moment, e: Event, s': Moment) {
    if !Possible(s, e) then s' == s else
    s'.log.total == s.log.total + Incoming(e) && Handed(s.log) <= Handed(s'.log) && After(g, max, s, e, s')
  }

  /** The connection was at these moments, with one of the events between each two. */
  ghost predicate IsRun(g: Grammar, max: nat, states: seq<Moment>, events: seq<Event>) {
    && |states| == |events| + 1 && states[0] == START
    && forall i :: 0 <= i < |events| ==> Follows(g, max, states[i], events[i], states[i + 1])
  }

  /** The bytes of the events that took place. */
  ghost function Received(states: seq<Moment>, events: seq<Event>): string
    requires |states| == |events| + 1
  {
    if events == [] then "" else
    var n := |events| - 1;
    Received(states[..n + 1], events[..n]) + if Possible(states[n], events[n]) then Incoming(events[n]) else ""
  }

  lemma ReceivedNext(states: seq<Moment>, events: seq<Event>, e: Event, s': Moment)
    requires |states| == |events| + 1
    ensures Received(states + [s'], events + [e])
        == Received(states, events) + if Possible(states[|events|], e) then Incoming(e) else ""
  {
    assert (events + [e])[..|events|] == events && (states + [s'])[..|events| + 1] == states;
  }

  class Connection {
    const g: Grammar
    const max: nat                    // max_request_entity_size
    var closed: bool
    var sock: Socket
    var req: Request
    var out: Ostream
    var status: nat                   // of the error response, 0 before there is one
    ghost var log: Log
    ghost var tape: Tape

    constructor (g: Grammar, max: nat)
      ensures Valid() && !closed && this.g == g && this.max == max && Now() == START
    {
      this.g, this.max := g, max;
      closed, sock, req, out, status := false, Socket("", true, None), FRESH_REQUEST, FRESH_OSTREAM, 0;
      log, tape := Log(AwaitHead, "", "", "", [], Msg("", ""), "", ""), Tape([], false, []);
    }

    ghost predicate Valid()
      reads this
    {
      if closed then Over(g, log) else Open(g, max, sock, req, out, log, tape)
    }

    ghost function Now(): Moment
      reads this
    {
      Moment(closed, sock, req, out, status, log, tape)
    }

    /** close_connection. */
    method Close()
      requires !closed && Bytes(g, max, sock.input, req, log)
      modifies this`closed, this`log
      ensures Valid() && closed && log.total == old(log.total) && Handed(log) == old(Handed(log)) == log.prior
    {
      hide Bytes, Over, Handed, Closing;
      ClosingOk(g, max, sock.input, req, log);
      closed := true;
      log := Closing(log);
    }

    /** The rest of finalostream_send, when no interim response is being written. */
    method SendNow(state: SendState, refuse: bool)
      requires !closed && SendDue(g, max, sock, req, out, log, tape, state)
      modifies this`closed, this`sock, this`req, this`out, this`log, this`tape
      ensures Valid() && log.total == old(log.total) && Handed(log) == old(Handed(log))
      ensures closed <==> state.Error? && refuse && (old(req.tunnel) || !old(req.proceed))
      ensures if state.Error? && refuse then tape.emitted == old(tape.emitted) else tape == old(Written(out, tape))
      ensures !closed ==>
          && log == old(log) && req == old(req.(persistent := req.persistent && !state.Error?))
          && out == old(out).(state := if state.Error? && refuse then Done else InBody)
          && sock == if state.Error? && refuse then old(sock)
                     else old(sock).(write := Some(if state.InProgress? then WNext else WFinal))
    {
      hide Bytes, Over, Handed, Open, SendDue;
      if state.Error? && refuse {
        SendRefused(g, max, sock, req, out, log, tape);
        tape := tape.(refused := out.state.AtHead?);
        req := req.(persistent := false);
        out := out.(state := Done);
        if req.tunnel || !req.proceed {
          OpenBytes(g, max, sock, req, out, log, tape);
          Close();
        }
        return;
      }
      SendWrites(g, max, sock, req, out, log, tape, state);
      tape := Written(out, tape);
      if state.Error? {
        req := req.(persistent := false);
      }
      out := out.(state := InBody);
      sock := sock.(write := Some(if state.InProgress? then WNext else WFinal));
    }

    /** finalostream_send: a send by the handler, put off while an interim response is being written. */
    method FinalSend(state: SendState, refuse: bool)
      requires !closed && Valid() && Submitted(log.stage) && (out.resp.NotStarted? || out.resp.CanSend?)
      modifies this`closed, this`sock, this`req, this`out, this`log, this`tape
      ensures Valid() && log.total == old(log.total) && Handed(log) == old(Handed(log))
      ensures if old(out.inflight) then
                !closed && tape == old(tape) && sock == old(sock) && out.state == old(out.state)
                && out.pending == old(out.pending) && out.pendingFinal == Some(Pending(state, refuse))
              else if state.Error? && refuse then
                tape.emitted == old(tape.emitted) && (closed <==> old(req.tunnel) || !old(req.proceed))
              else !closed && tape == old(Written(out, tape))
                   && sock.write == Some(if state.InProgress? then WNext else WFinal)
      ensures !closed ==>
          && log == old(log) && (req.persistent ==> old(req.persistent))
          && out.resp == if state.InProgress? then Sending else Ended
    {
      hide Over, Handed, Open, SendDue, Written;
      SendAccepted(g, max, sock, req, out, log, tape, state, refuse);
      WrittenSame(out, if state.InProgress? then Sending else Ended, tape);
      out := out.(resp := if state.InProgress? then Sending else Ended);
      if out.inflight {
        out := out.(pendingFinal := Some(Pending(state, refuse)));
        return;
      }
      SendNow(state, refuse);
    }

    /** do_send_informational: all that is queued goes out in one write. */
    method DoSendInformational()
      requires !closed && Valid() && Submitted(log.stage) && out.resp.NotStarted? && !out.inflight
      modifies this`sock, this`out, this`tape
      ensures Valid() && out.inflight && out.pending == [] && out.resp == old(out.resp)
          && tape.emitted == old(tape.emitted + Interims(out.pending))
    {
      hide Open;
      InfoStarts(g, max, sock, req, out, log, tape);
      assert sock.write.None?;
      tape := tape.(emitted := tape.emitted + Interims(out.pending));
      sock := sock.(write := Some(WInfo));
      out := out.(inflight := true, pending := []);
    }

    /** finalostream_send_informational. */
    method SendInformational(n: nat)
      requires !closed && Valid() && Submitted(log.stage) && out.resp.NotStarted?
      modifies this`sock, this`out, this`tape
      ensures Valid() && out.inflight && out.resp.NotStarted?
      ensures if old(out.inflight) then tape == old(tape) && out.pending == old(out.pending) + [n]
              else out.pending == [] && tape.emitted == old(tape.emitted + Interims(out.pending + [n]))
    {
      hide Open;
      InfoQueued(g, max, sock, req, out, log, tape, out.pending + [n]);
      out := out.(pending := out.pending + [n]);
      if !out.inflight {
        DoSendInformational();
      }
    }

    /** on_send_informational_complete: what is queued is written, unless a send of the final response has been put
        off; then that is written and the queue is not. */
    method OnInformationalComplete(err: bool)
      requires !closed && Valid() && sock.write == Some(WInfo)
      modifies this
      ensures Valid() && log.total == old(log.total) && Handed(log) == old(Handed(log)) && (err ==> closed)
      ensures !err && old(out.pendingFinal).None? ==>
          !closed && out.pending == [] && (out.inflight <==> old(out.pending) != [])
          && tape.emitted == old(tape.emitted + Interims(out.pending))
      ensures !closed && old(out.pendingFinal).Some? ==> !out.inflight && out.pendingFinal.None?
      ensures !err && old(out.pendingFinal).Some? ==>
                var p := old(out.pendingFinal).value;
                if p.state.Error? && p.refused then
                  tape.emitted == old(tape.emitted) && (closed <==> old(req.tunnel) || !old(req.proceed))
                else !closed && tape == old(Written(out, tape))
    {
      hide Over, Handed, Open, SendDue, Written;
      if err {
        OpenBytes(g, max, sock, req, out, log, tape);
        Close();
        return;
      }
      InfoDone(g, max, sock, req, out, log, tape);
      WrittenSame(out, out.resp, tape);
      var final := out.pendingFinal;
      sock := sock.(write := None);
      out := out.(inflight := false, pendingFinal := None);
      if final.Some? {
        SendNow(final.value.state, final.value.refused);
      } else if |out.pending| != 0 {
        DoSendInformational();
      } else {
        assert tape.emitted + Interims([]) == tape.emitted;
      }
    }

    /** on_send_next: the handler may send more. */
    method OnSendNext(err: bool)
      requires !closed && Valid() && sock.write == Some(WNext)
      modifies this
      ensures Valid() && log.total == old(log.total) && Handed(log) == old(Handed(log)) && tape == old(tape)
      ensures if err then closed else !closed && out.resp.CanSend? && req == old(req)
    {
      hide Over, Handed, Open;
      if err {
        OpenBytes(g, max, sock, req, out, log, tape);
        Close();
        return;
      }
      NextDone(g, max, sock, req, out, log, tape);
      sock := sock.(write := None);
      out := out.(resp := CanSend);
    }

    // ---- Errors -------------------------------------------------------------------------------------------

    /** entity_read_do_send_error and send_bad_request: reading ends, and an error is sent if the handler has not
        started to respond. */
    method RejectRequest(code: nat)
      requires !closed && Losing(g, max, sock, req, out, log, tape)
      modifies this
      ensures Valid() && log.total == old(log.total) && Handed(log) == old(Handed(log)) && log.prior == old(log.prior)
          && (closed <==> old(out.state).Done?)
      ensures !closed ==> log.stage.Failed? && !req.persistent && !sock.reading
      ensures old(out.resp).NotStarted? ==>
          status == code && tape == if old(out.inflight) then old(tape) else old(Written(out, tape))
    {
      hide Over, Handed, Open, Losing, Written;
      Rejected(g, max, sock, req, out, log, tape);
      req := req.(proceed := false, reader := NoReader);
      sock := sock.(reading := false);
      log := log.(stage := Failed);
      if out.resp.NotStarted? && out.state.AtHead? {
        status := code;
        req := req.(persistent := false);
        FinalSend(Final, false);
        StaysFailed(g, max, sock, req, out, log, tape);
      } else {
        req := req.(persistent := false);
        if out.state.Done? {
          OpenBytes(g, max, sock, req, out, log, tape);
          Close();
        }
      }
    }

    // ---- Reading ------------------------------------------------------------------------------------------

    /** handle_one_body_fragment: `more` is the data of the next `k` bytes. */
    method HandleFragment(k: nat, more: string, reader: Reader, complete: bool, env: Env)
      requires !closed && InEntity(g, max, sock, req, out, log, tape)
          && Yields(g, log.wire, log.data, sock.input, k, more, reader, complete)
      requires Limited(req.tunnel, reader, log.data + more, max) && (complete ==> reader == NoReader)
      modifies this
      ensures Valid() && log.total == old(log.total) && old(Handed(log)) <= Handed(log) && old(log.prior) <= log.prior
      ensures !closed && log.stage.Buffering? && !old(out.state).Done? ==> sock.reading
      ensures complete && Lucky(env) ==> old(log.prior + [Msg(req.head, log.given + (req.body + more))]) <= Handed(log)
      ensures (more != "" || complete) && (env.appendFails || (env.handlerFails && old(req.writeReq).Streaming?)) ==>
                && (closed <==> old(out.state).Done?) && (!closed ==> log.stage.Failed?)
                && (old(out.resp).NotStarted? ==> status == 502)
      ensures Lucky(env) && !old(out.state).Done? ==>
                && !closed && !log.stage.Failed? && log.prior == old(log.prior)
                && req.persistent == old(req.persistent) && req.tunnel == old(req.tunnel)
                && (log.stage.Whole? <==> complete)
                && (!complete && more != "" ==> (log.stage.Forwarding? <==>
                    old(req.writeReq).Streaming?
                    || (old(req.writeReq).ReadFirst? && env.canStream)))
      decreases if out.state.Done? then 1 else 0, 2
    {
      hide Losing, Bytes, Over, Open, Yields, Limited, PartWire, MsgWire, Ordered, Drained, Output;
      YieldsAll(g, log.wire, log.data, sock.input, k, more, reader, complete);
      if |more| == 0 && !complete {
        assert more == "" && log.data + "" == log.data;
        Absorbed(g, max, sock, req, out, log, tape, reader);
        log := Taken(log, sock.input, k, "");
        req := req.(reader := reader);
        sock := sock.(input := "");
        return;
      }
      if env.appendFails {
        AjarLosing(g, max, sock, req, out, log, tape);
        RejectRequest(502);
        return;
      }
      if req.writeReq.Streaming? {
        assert !req.awaiting;
        if env.handlerFails {
          RefusedPart(g, max, sock, req, out, log, tape, k, more, reader);
          req := req.(body := req.body + more, received := req.received + |more|);
          req := req.(entity := req.body);
          log := Taken(log, sock.input, k, more);
          sock := sock.(reading := false, input := sock.input[k..]);
          RejectRequest(502);
          return;
        }
      }
      if complete {
        CompleteBody(k, more, env);
      } else if req.writeReq.Streaming? || (req.writeReq.ReadFirst? && env.canStream) {
        ForwardPart(more, reader);
      } else {
        CollectPart(more, reader);
      }
    }

    /** The last part of a body: the request is submitted, or the handler gets the end of it. */
    method CompleteBody(k: nat, more: string, env: Env)
      requires !closed && InEntity(g, max, sock, req, out, log, tape)
          && Yields(g, log.wire, log.data, sock.input, k, more, NoReader, true)
      requires Limited(req.tunnel, NoReader, log.data + more, max)
      modifies this
      ensures Valid() && log.total == old(log.total) && old(Handed(log)) <= Handed(log) && old(log.prior) <= log.prior
      ensures old(log.prior + [Msg(req.head, log.given + (req.body + more))]) <= Handed(log)
      ensures !old(out.state).Done? ==>
                && !closed && log.stage.Whole? && log.prior == old(log.prior)
                && req.head == old(req.head) && req.entity == old(req.body) + more
                && req.persistent == old(req.persistent) && req.tunnel == old(req.tunnel)
      decreases if out.state.Done? then 1 else 0, 1
    {
      hide Bytes, Over, Open, InEntity, Limited, PartWire, MsgWire;
      YieldsAll(g, log.wire, log.data, sock.input, k, more, NoReader, true);
      InEntityStage(g, max, sock, req, out, log, tape);
      var wr := if req.writeReq.ReadFirst? then NonStreaming else req.writeReq;
      Completes(g, max, sock, req, out, log, tape, k, more, wr);
      req := req.(body := req.body + more, received := req.received + |more|, writeReq := wr, proceed := false,
          awaiting := false, reader := NoReader);
      req := req.(entity := req.body);
      log := Shown(Taken(log, sock.input, k, more), req.entity);
      log := log.(stage := Whole, cur := Msg(req.head, log.given));
      sock := sock.(reading := false, input := sock.input[k..]);
      if out.state.Done? {
        Cleanup(env);
      }
    }

    /** A part of a body for the handler, the first together with the head. */
    method ForwardPart(more: string, reader: Reader)
      requires !closed && InEntity(g, max, sock, req, out, log, tape)
      requires Yields(g, log.wire, log.data, sock.input, |sock.input|, more, reader, false)
          && Limited(req.tunnel, reader, log.data + more, max)
      modifies this`sock, this`req, this`log
      ensures Valid() && req.head == old(req.head) && req.entity == old(req.body) + more
      ensures log == Shown(old(Taken(log, sock.input, |sock.input|, more)), req.entity).(stage := Forwarding)
      ensures req.persistent == old(req.persistent) && req.tunnel == old(req.tunnel) && req.awaiting && !sock.reading
    {
      hide Bytes, Open, InEntity, Limited, Yields;
      var wr := if req.writeReq.Streaming? then Streaming else Unset;
      Forwards(g, max, sock, req, out, log, tape, more, reader, wr);
      req := req.(body := req.body + more, received := req.received + |more|, writeReq := wr, proceed := true,
          awaiting := true, reader := reader);
      req := req.(entity := req.body);
      log := Shown(Taken(log, sock.input, |sock.input|, more), req.entity).(stage := Forwarding);
      sock := sock.(reading := false, input := "");
    }

    /** A part of a body that is kept. */
    method CollectPart(more: string, reader: Reader)
      requires !closed && InEntity(g, max, sock, req, out, log, tape) && log.stage.Buffering?
      requires Yields(g, log.wire, log.data, sock.input, |sock.input|, more, reader, false)
          && Limited(req.tunnel, reader, log.data + more, max)
      modifies this`sock, this`req, this`log
      ensures Valid() && log == old(Taken(log, sock.input, |sock.input|, more)) && req.body == old(req.body) + more
          && sock.reading == old(sock.reading)
      ensures req.persistent == old(req.persistent) && req.tunnel == old(req.tunnel)
    {
      hide Bytes, Open, InEntity, Limited, Yields;
      Collects(g, max, sock, req, out, log, tape, more, reader);
      log := Taken(log, sock.input, |sock.input|, more);
      req := req.(body := req.body + more, received := req.received + |more|, writeReq := NonStreaming,
          reader := reader);
      req := req.(entity := req.body);
      sock := sock.(input := "");
    }

    /** handle_content_length_entity_read, also for tunnels, where there is no end. */
    method HandleLength(env: Env)
      requires !closed && InEntity(g, max, sock, req, out, log, tape) && !req.reader.Chunks?
      modifies this
      ensures Valid() && AfterEntity(max, old(Now()), env, Now())
      decreases if out.state.Done? then 1 else 0, 3
    {
      hide Losing, Over, Open, Framed, PartWire, MsgWire, Ordered, Drained, Output;
      var input := sock.input;
      ReaderSet(g, log.wire, req.reader, log.data);
      if req.reader.Endless? {
        if |input| == 0 {
          NothingCame(g, max, sock, req, out, log, tape);
        } else {
          EndlessYields(g, log.wire, log.data, input);
          HandleFragment(|input|, input, Endless, false, env);
        }
        return;
      }
      var n := req.reader.length;
      FixedBound(g, log.wire, n, log.data);
      if req.received + |input| >= n {
        var k := n - req.received;
        FixedYields(g, max, log.wire, n, log.data, input, k, true);
        HandleFragment(k, input[..k], NoReader, true, env);
      } else if |input| == 0 {
        NothingCame(g, max, sock, req, out, log, tape);
      } else {
        FixedYields(g, max, log.wire, n, log.data, input, |input|, false);
        HandleFragment(|input|, input, Fixed(n), false, env);
      }
    }

    /** handle_chunked_entity_read. */
    method HandleChunked(env: Env)
      requires !closed && InEntity(g, max, sock, req, out, log, tape) && req.reader.Chunks?
      modifies this
      ensures Valid() && AfterEntity(max, old(Now()), env, Now())
      decreases if out.state.Done? then 1 else 0, 3
    {
      hide Losing, Over, Open, Framed, PartWire, MsgWire, Ordered, Drained, Output, ChunkDecoder.Run;
      var input := sock.input;
      if |input| == 0 {
        NothingCame(g, max, sock, req, out, log, tape);
        return;
      }
      var r := ChunkDecoder.Run(req.reader.st, input);
      if r.st.Broken? || (!r.st.Complete? && TooMuch(req.reader, input)) {
        AjarLosing(g, max, sock, req, out, log, tape);
        RejectRequest(400);
        return;
      }
      if |r.data| + req.received >= max {
        AjarLosing(g, max, sock, req, out, log, tape);
        RejectRequest(413);
        return;
      }
      ChunksYield(g, log.wire, req.reader, log.data, input);
      if r.st.Complete? {
        HandleFragment(|input| - |r.rest|, r.data, NoReader, true, env);
      } else {
        HandleFragment(|input|, r.data, Onward(req.reader, input), false, env);
      }
    }

    /** The entity reader of the request. */
    method HandleEntity(env: Env)
      requires !closed && InEntity(g, max, sock, req, out, log, tape)
      modifies this
      ensures Valid() && AfterEntity(max, old(Now()), env, Now())
      decreases if out.state.Done? then 1 else 0, 4
    {
      hide Open, InEntity, AfterEntity;
      if req.reader.Chunks? {
        HandleChunked(env);
      } else {
        HandleLength(env);
      }
    }

    /** cleanup_connection, once the response is complete. */
    method Cleanup(env: Env)
      requires !closed && Valid() && out.state.Done? && (req.persistent ==>
          log.stage.Whole?
          && req.unconsumed <= |sock.input|)
      modifies this
      ensures Valid() && log.total == old(log.total) && old(Handed(log)) <= Handed(log) && old(log.prior) <= log.prior
          && (!old(req.persistent) ==> closed)
      ensures old(req.persistent) ==> old(Handed(log)) <= log.prior
      ensures old(req.persistent) && Lucky(env) && old(NextStatus(g, req, sock.input, env.shutdown, max)).None? ==>
                !closed && !log.stage.Failed?
      decreases 1, 0
    {
      hide Over, Open, Ajar;
      if !req.persistent {
        OpenBytes(g, max, sock, req, out, log, tape);
        Close();
        return;
      }
      NextRequest(g, max, sock, req, out, log, tape);
      assert !req.proceed;
      assert req.reader.NoReader?;
      sock := sock.(input := sock.input[req.unconsumed..], reading := true);
      req, out := FRESH_REQUEST, FRESH_OSTREAM;
      log, tape := NextLog(log), NextTape(tape);
      if |sock.input| != 0 {
        HandleIncomingRequest(env);
      } else {
        NoInput(g);
        NothingToRead(g, max, sock, req, out, log, tape);
      }
    }

    /** send_bad_request, and the errors sent while a head is handled: nothing has been sent for the request before. */
    method SendBadRequest(code: nat)
      requires !closed && Ajar(g, max, sock, req, out, log, tape) && log.stage.AwaitHead?
      modifies this
      ensures Valid() && !closed && log.total == old(log.total) && Handed(log) == old(Handed(log))
          && log.prior == old(log.prior) && log.stage.Failed? && status == code
    {
      hide Over, Handed, Open, Losing, Written, Ajar;
      AwaitOut(g, max, sock, req, out, log, tape);
      AjarLosing(g, max, sock, req, out, log, tape);
      RejectRequest(code);
    }

    /** A tunnel is submitted with the payload that has come early. */
    method StartTunnel(n: nat, h: Head)
      requires !closed && Ajar(g, max, sock, req, out, log, tape) && log.stage.AwaitHead?
          && Parse(g, sock.input) == Complete(n, h)
      modifies this`sock, this`req, this`log
      ensures Valid() && log.total == old(log.total) && log.prior == old(log.prior) && log.stage.Forwarding?
      ensures req.tunnel && !req.persistent && req.awaiting && !sock.reading
          && req.head == old(sock.input)[..n] && req.entity == old(sock.input)[n..]
    {
      hide Over, Open, Ajar, Parse;
      var input := sock.input;
      var early := input[n..];
      var wr := if early == "" then ConnectFirst else Unset;
      SubmitsTunnel(g, max, sock, req, out, log, tape, wr);
      req := req.(unconsumed := 0, reader := Endless, head := input[..n], body := early, received := |early|,
                  writeReq := wr, proceed := true, awaiting := true, persistent := false, tunnel := true);
      req := req.(entity := req.body);
      log := Shown(log, req.entity).(stage := Forwarding, wire := input, data := early);
      sock := Socket("", false, sock.write);
    }

    /** handle_incoming_request. */
    method HandleIncomingRequest(env: Env)
      requires !closed && Ajar(g, max, sock, req, out, log, tape) && log.stage.AwaitHead?
      modifies this
      ensures Valid() && log.total == old(log.total) && old(Handed(log)) <= Handed(log) && old(log.prior) <= log.prior
      ensures var bad := old(RequestStatus(g, sock.input, env.shutdown, max));
              && (Lucky(env) && bad.None? ==>
                    !closed && !log.stage.Failed? && log.prior == old(log.prior)
                    && (log.stage.Whole? <==> old(RequestEnds(g, sock.input, env.shutdown))))
              && (Lucky(env) && bad.Some? ==> closed || (log.stage.Failed? && status == bad.value))
              && (Lucky(env) && closed ==> old(|sock.input| <= 4 && CrlfOnly(sock.input)))
      decreases 0, 7
    {
      hide Losing, Over, Open, Bytes, Ordered, Parse, Written;
      var input := sock.input;
      AwaitOut(g, max, sock, req, out, log, tape);
      match Parse(g, input)
      case Incomplete =>
        if |input| >= MAX_REQLEN {
          SendBadRequest(400);
        } else {
          NothingToRead(g, max, sock, req, out, log, tape);
        }
      case Invalid =>
        if env.http2 || (|input| <= 4 && CrlfOnly(input)) {
          Close();
        } else {
          SendBadRequest(400);
        }
      case Complete(n, h) => HandleHead(n, h, env);
    }

    /** The part of handle_incoming_request for a complete head. */
    method HandleHead(n: nat, h: Head, env: Env)
      requires !closed && Ajar(g, max, sock, req, out, log, tape) && log.stage.AwaitHead?
          && Parse(g, sock.input) == Complete(n, h)
      modifies this
      ensures Valid() && log.total == old(log.total) && old(Handed(log)) <= Handed(log) && old(log.prior) <= log.prior
      ensures var bad := old(RequestStatus(g, sock.input, env.shutdown, max));
              Lucky(env) ==>
                  !closed && (log.stage.Failed? <==> bad.Some?) && (bad.Some? ==> status == bad.value)
                  && log.prior == old(log.prior)
                  && (bad.None? ==> Fixup(h, env.shutdown) == Some((req.tunnel, req.persistent)))
                  && (bad.None? && h.entity.NoEntity? && req.tunnel ==> log.stage.Forwarding?)
                  && (bad.None? ==> (log.stage.Whole? <==> old(RequestEnds(g, sock.input, env.shutdown))))
      decreases 0, 6
    {
      hide Losing, Over, Open, Bytes, Ordered, Parse, Written, EntityStatus;
      var input := sock.input;
      AwaitOut(g, max, sock, req, out, log, tape);
      var fixed := Fixup(h, env.shutdown);
      if fixed.None? {
        SendBadRequest(400);
        return;
      }
      var tunnel, persistent := fixed.value.0, fixed.value.1;
      if h.entity != NoEntity {
        if h.expectsOther {
          SendBadRequest(417);
          return;
        }
        if h.entity.BadEntity? {
          SendBadRequest(400);
          return;
        }
        if h.entity.Length? && h.entity.n > max {
          SendBadRequest(413);
          return;
        }
        StartBody(n, h, persistent, tunnel, env);
      } else if tunnel {
        StartTunnel(n, h);
      } else {
        SubmitsWhole(g, max, sock, req, out, log, tape, persistent);
        req := req.(unconsumed := n, head := input[..n], persistent := persistent, tunnel := false);
        log := log.(stage := Whole, wire := input[..n], cur := Msg(req.head, req.entity));
        sock := sock.(reading := false);
      }
    }

    /** The start of a body: its head leaves the input, and 100 Continue is written if it is expected. */
    method StartBody(n: nat, h: Head, persistent: bool, tunnel: bool, env: Env)
      requires !closed && Ajar(g, max, sock, req, out, log, tape) && log.stage.AwaitHead?
          && Parse(g, sock.input) == Complete(n, h)
      requires h.entity.ChunkedEntity? || (h.entity.Length? && h.entity.n <= max)
      requires !(tunnel && persistent)
      modifies this
      ensures Valid() && log.total == old(log.total) && old(Handed(log)) <= Handed(log) && old(log.prior) <= log.prior
      ensures var bad := if h.expectsContinue then None else old(EntityStatus(BodyReader(h.entity), 0, sock.input[n..],
          max));
              Lucky(env) ==>
                  !closed && (log.stage.Failed? <==> bad.Some?) && (bad.Some? ==> status == bad.value)
                  && log.prior == old(log.prior)
                  && (bad.None? ==> req.tunnel == tunnel && req.persistent == persistent)
                  && (bad.None? ==> (log.stage.Whole? <==>
                        !h.expectsContinue && old(BodyEnds(BodyReader(h.entity), 0, sock.input[n..]))))
      decreases 0, 5
    {
      hide Over, Open, Bytes, Ordered, Parse, EntityStatus;
      var input := sock.input;
      AwaitOut(g, max, sock, req, out, log, tape);
      StartsBody(g, max, sock, req, out, log, tape, persistent, tunnel);
      log := log.(stage := Buffering, wire := input[..n]);
      req := req.(unconsumed := 0, reader := BodyReader(h.entity), head := input[..n], writeReq := ReadFirst,
          persistent := persistent, tunnel := tunnel);
      sock := sock.(input := input[n..]);
      if h.expectsContinue {
        assert sock.write.None?;
        Continues(g, max, sock, req, out, log, tape);
        tape := tape.(emitted := tape.emitted + [Interim(100)]);
        sock := sock.(write := Some(WContinue), reading := false);
        return;
      }
      HandleEntity(env);
    }

    // ---- Events -------------------------------------------------------------------------------------------

    /** reqread_on_read. */
    method OnRead(chunk: string, err: bool, env: Env)
      requires !closed && Valid() && sock.reading
      modifies this
      ensures Valid() && log.total == old(log.total) + (if err then "" else chunk) && old(Handed(log)) <= Handed(log)
          && (err ==> closed)
      ensures var bad := old(ReadStatus(g, req, sock.input + chunk, env.shutdown, max));
              !err && Lucky(env) && !old(out.state).Done? ==>
                if bad.None? then !closed && !log.stage.Failed? else closed || log.stage.Failed?
      ensures !err && Lucky(env) && old(ReadStatus(g, req, sock.input + chunk, env.shutdown, max)).None? ==>
                var ends := old(ReadEnds(g, req, sock.input + chunk, env.shutdown));
                && (!old(out.state).Done? ==> (log.stage.Whole? <==> ends))
                && (ends ==> |old(log.prior)| < |Handed(log)|)
    {
      hide Over, Open, Ajar, Bytes;
      assert old(log.total) + "" == old(log.total);
      if err {
        OpenBytes(g, max, sock, req, out, log, tape);
        Close();
        return;
      }
      ReadingStages(g, max, sock, req, out, log, tape);
      Arrives(g, max, sock, req, out, log, tape, chunk);
      log := log.(total := log.total + chunk);
      sock := sock.(input := sock.input + chunk);
      if req.reader.NoReader? {
        HandleIncomingRequest(env);
      } else {
        HandleEntity(env);
      }
    }

    /** on_continue_sent. */
    method OnContinueSent(err: bool, env: Env)
      requires !closed && Valid() && sock.write == Some(WContinue)
      modifies this
      ensures Valid() && log.total == old(log.total) && old(Handed(log)) <= Handed(log) && (err ==> closed)
      ensures !closed && log.stage.Buffering? ==> sock.reading
      ensures var bad := old(EntityStatus(req.reader, req.received, sock.input, max));
              !err && Lucky(env) ==>
                && !closed && (log.stage.Failed? <==> bad.Some?) && (bad.Some? ==> status == bad.value)
                && (bad.None? ==> (log.stage.Whole? <==> old(BodyEnds(req.reader, req.received, sock.input))))
    {
      hide Over, Open, Ajar, Bytes;
      if err {
        OpenBytes(g, max, sock, req, out, log, tape);
        Close();
        return;
      }
      ContinueDone(g, max, sock, req, out, log, tape);
      sock := sock.(write := None, reading := true);
      HandleEntity(env);
    }

    /** proceed_request: the handler, which has set its own callback by now, wants more of the body or has failed. */
    method ProceedRequest(err: bool)
      requires !closed && Valid() && log.stage.Forwarding? && (!err ==> req.awaiting)
      modifies this
      ensures Valid() && log.total == old(log.total) && Handed(log) == old(Handed(log))
      ensures !err ==> !closed && sock.reading && req.body == "" && !req.awaiting && log == old(log)
      ensures err ==> (closed <==> old(out.state).Done?) && (!closed ==> log.stage.Failed? && !req.persistent)
      ensures err && old(out.resp).NotStarted? ==>
          status == 502 && tape == if old(out.inflight) then old(tape) else old(Written(out, tape))
    {
      hide Losing, Over, Open, Bytes, Drained, Ordered;
      if err {
        OpenAjar(g, max, sock, req, out, log, tape);
        AjarLosing(g, max, sock, req, out, log, tape);
        RejectRequest(502);
        return;
      }
      Proceeds(g, max, sock, req, out, log, tape);
      assert |req.entity| == |req.body|;
      req := req.(body := "", writeReq := Streaming, awaiting := false);
      sock := sock.(reading := true);
    }

    /** on_send_complete; `trailer` if there is a trailer to write. */
    method OnSendComplete(err: bool, trailer: bool, env: Env)
      requires !closed && Valid() && sock.write == Some(WFinal)
      modifies this
      ensures Valid() && log.total == old(log.total) && old(Handed(log)) <= Handed(log)
      ensures !err && trailer ==> !closed && log == old(log) && tape.emitted == old(tape.emitted) + [Payload]
      ensures !(!err && trailer) && (err || !old(req.persistent)) && (old(req.tunnel) || !old(req.proceed)) ==> closed
      ensures !(!err && trailer) && old(req.proceed) && !old(req.tunnel) ==>
          !closed && out.state.Done? && sock.write.None? && log == old(log) && tape == old(tape)
          && req.persistent == (old(req.persistent) && !err)
      ensures !err && !trailer && old(req.persistent) && !old(req.proceed) ==> old(Handed(log)) <= log.prior
      ensures !err && !trailer && old(req.persistent) && !old(req.proceed) && Lucky(env) &&
              old(NextStatus(g, req, sock.input, env.shutdown, max)).None? ==>
                !closed && !log.stage.Failed?
    {
      hide Over, Open, Bytes;
      if !err && trailer {
        TrailerStarts(g, max, sock, req, out, log, tape);
        tape := tape.(emitted := tape.emitted + [Payload]);
        sock := sock.(write := Some(WTrailers));
        return;
      }
      ResponseDone(g, max, sock, req, out, log, tape, req.persistent && !err);
      req := req.(persistent := req.persistent && !err);
      sock := sock.(write := None);
      out := out.(state := Done);
      if req.tunnel {
        assert !req.persistent;
        Cleanup(env);
      } else if !req.proceed {
        Cleanup(env);
      }
    }

    /** on_send_complete_post_trailers. */
    method OnTrailersSent(err: bool, env: Env)
      requires !closed && Valid() && sock.write == Some(WTrailers)
      modifies this
      ensures Valid() && log.total == old(log.total) && old(Handed(log)) <= Handed(log)
      ensures (err || !old(req.persistent)) && !old(req.proceed) ==> closed
      ensures old(req.proceed) ==>
          !closed && out.state.Done? && sock.write.None? && log == old(log) && tape == old(tape)
          && req.persistent == (old(req.persistent) && !err)
      ensures !err && old(req.persistent) && !old(req.proceed) ==> old(Handed(log)) <= log.prior
      ensures !err && old(req.persistent) && !old(req.proceed) && Lucky(env) &&
              old(NextStatus(g, req, sock.input, env.shutdown, max)).None? ==>
                !closed && !log.stage.Failed?
    {
      hide Over, Open, Bytes;
      ResponseDone(g, max, sock, req, out, log, tape, req.persistent && !err);
      req := req.(persistent := req.persistent && !err);
      sock := sock.(write := None);
      out := out.(state := Done);
      if !req.proceed {
        Cleanup(env);
      }
    }

    /** A timeout, or the closing of idle connections. */
    method OnTimeout()
      requires !closed && Valid()
      modifies this
      ensures Valid() && closed && log.total == old(log.total) && Handed(log) == old(Handed(log))
    {
      hide Open, Bytes;
      OpenBytes(g, max, sock, req, out, log, tape);
      req := req.(persistent := false);
      BytesSame(g, max, sock.input, old(req), req, log);
      Close();
    }

    /** One event, if it can take place. */
    method Step(e: Event) returns (taken: bool)
      requires Valid()
      modifies this
      ensures Valid() && taken == old(Possible(Now(), e)) && Follows(g, max, old(Now()), e, Now())
    {
      hide Open, Over, Handed, Written, Interims, ReadStatus, ReadEnds, EntityStatus, BodyEnds, NextStatus;
      assert log.total + "" == log.total;
      taken := Enables(closed, sock, req, out.resp, e);
      if !taken {
        return;
      }
      HandStages(g, max, sock, req, out, log, tape);
      match e
      case Read(chunk, err, env) => OnRead(chunk, err, env);
      case ContinueSent(err, env) => OnContinueSent(err, env);
      case Proceed(err) => ProceedRequest(err);
      case Send(state, refuse) => FinalSend(state, refuse);
      case Inform(n) => SendInformational(n);
      case InfoSent(err) => OnInformationalComplete(err);
      case NextSent(err) => OnSendNext(err);
      case Sent(err, trailer, env) => OnSendComplete(err, trailer, env);
      case TrailersSent(err, env) => OnTrailersSent(err, env);
      case Timeout => OnTimeout();
    }
  }

  /** A connection from its start, through any events in any order. */
  method Serve(g: Grammar, max: nat, events: seq<Event>) returns (c: Connection, ghost states: seq<Moment>)
    ensures fresh(c) && c.Valid() && IsRun(g, max, states, events) && c.Now() == states[|events|]
    ensures c.log.total == Received(states, events) && Handed(c.log) <= Decompose(g, Received(states, events))
    ensures !c.closed && CaughtUp(c.sock, c.req, c.log) ==> Handed(c.log) == Decompose(g, Received(states, events))
    ensures !c.closed && c.log.stage.Whole? ==>
        && Received(states, events) == c.log.past + c.log.wire + c.sock.input[c.req.unconsumed..]
        && Handed(c.log) == Decompose(g, c.log.past + c.log.wire)
        && c.log.cur == Msg(c.req.head, c.log.given)
    ensures !c.closed ==> !(c.req.tunnel && c.req.persistent) && (!c.req.tunnel ==> c.req.received <= max)
    ensures !c.closed ==>
        && (if c.out.state.AtHead? || c.tape.refused then AllInterim(c.tape.emitted) else OneHead(c.tape.emitted))
        && |c.tape.before| == |c.log.prior| && forall e :: e in c.tape.before ==> OneHead(e)
  {
    hide Open, Over, Handed, Decompose, CaughtUp, AllInterim, OneHead, Possible, After;
    c := new Connection(g, max);
    states := [START];
    for i := 0 to |events|
      invariant c.Valid() && fresh(c) && c.g == g && c.max == max
      invariant IsRun(g, max, states, events[..i]) && c.Now() == states[i]
      invariant c.log.total == Received(states, events[..i])
    {
      var taken := c.Step(events[i]);
      ReceivedNext(states, events[..i], events[i], c.Now());
      assert events[..i + 1] == events[..i] + [events[i]];
      states := states + [c.Now()];
    }
    assert events[..|events|] == events;
    HandedInOrder(g, max, c.closed, c.sock, c.req, c.out, c.log, c.tape);
    if !c.closed {
      AlwaysSafe(g, max, c.sock, c.req, c.out, c.log, c.tape);
      if c.log.stage.Whole? { WholeIsShown(g, max, c.sock, c.req, c.out, c.log, c.tape); }
    }
  }

  /** An interim response queued behind another is never written if the final response is sent before the first one has
      gone out, whatever the connection did before. */
  method DropInterim(c: Connection, first: nat, second: nat)
    requires c.Valid() && Possible(c.Now(), Inform(first)) && !c.out.inflight && c.out.pending == []
    modifies c
    ensures !c.closed && c.tape.emitted == old(c.tape.emitted) + [Interim(first), FinalHead, Payload]
  {
    hide Open, Over, Handed;
    HandStages(c.g, c.max, c.sock, c.req, c.out, c.log, c.tape);
    c.SendInformational(first);
    c.SendInformational(second);
    assert c.out.pending == [second];
    InfoWrite(c.g, c.max, c.sock, c.req, c.out, c.log, c.tape);
    c.FinalSend(Final, false);
    c.OnInformationalComplete(false);
  }
}

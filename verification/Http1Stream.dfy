/** A stream of HTTP/1 requests and its sequential decomposition into messages (section 6.3 of RFC 9112). */
module Http1Stream {
  import opened Options
  import ChunkDecoder

  /** What the header fields say about the body. */
  datatype Entity = NoEntity | Length(n: nat) | ChunkedEntity | BadEntity

  datatype Method = Ordinary | Connect | ConnectUdp

  /** A parsed head, as far as lib/http1.c looks at it. */
  datatype Head = Head(meth: Method, v11: bool, wellFormed: bool, entity: Entity, expectsContinue: bool,
                       expectsOther: bool, connection: bool, keepAlive: bool, upgrades: bool)

  /** Any parser that decides by the shortest prefix it can: the texts it takes for complete heads, and those at which
      it gives up. */
  datatype Grammar = Grammar(heads: map<string, Head>, bad: set<string>)

  datatype Parsed = Incomplete | Invalid | Complete(len: nat, head: Head)

  const MAX_REQLEN := 8192 + 4096 * 100

  function ParseFrom(g: Grammar, s: string, n: nat): (r: Parsed)
    requires n <= |s|
    ensures r.Complete? ==> n <= r.len <= |s| && s[..r.len] in g.heads && r.head == g.heads[s[..r.len]]
    decreases |s| - n
  {
    if s[..n] in g.heads then Complete(n, g.heads[s[..n]])
    else if s[..n] in g.bad then Invalid
    else if n == |s| then Incomplete else ParseFrom(g, s, n + 1)
  }

  /** The answer of phr_parse_request on what has been received, at most the longest head allowed. */
  function Parse(g: Grammar, s: string): (r: Parsed)
    ensures r.Complete? ==> 0 < r.len <= |s|
  {
    var t := if |s| < MAX_REQLEN then s else s[..MAX_REQLEN];
    if t == "" then Incomplete else ParseFrom(g, t, 1)
  }

  lemma {:induction false} ParseStable(g: Grammar, s: string, t: string, n: nat)
    requires n <= |s| && !ParseFrom(g, s, n).Incomplete?
    ensures ParseFrom(g, s + t, n) == ParseFrom(g, s, n)
    decreases |s| - n
  {
    assert (s + t)[..n] == s[..n];
    if s[..n] !in g.heads && s[..n] !in g.bad { ParseStable(g, s, t, n + 1); }
  }

  /** What the parser has decided stays decided. */
  lemma HeadStable(g: Grammar, s: string, t: string)
    requires !Parse(g, s).Incomplete?
    ensures Parse(g, s + t) == Parse(g, s)
  {
    var a := if |s| < MAX_REQLEN then s else s[..MAX_REQLEN];
    var b := if |s + t| < MAX_REQLEN then s + t else (s + t)[..MAX_REQLEN];
    assert a <= b;
    var d := b[|a|..];
    assert b == a + d;
    ParseStable(g, a, d, 1);
  }

  lemma {:induction false} ParseTrim(g: Grammar, s: string, n: nat, k: nat)
    requires n <= k <= |s| && ParseFrom(g, s, n).Complete? && ParseFrom(g, s, n).len == k
    ensures ParseFrom(g, s[..k], n) == ParseFrom(g, s, n)
    decreases |s| - n
  {
    assert s[..k][..n] == s[..n];
    if n < k { ParseTrim(g, s, n + 1, k); }
  }

  /** A head is a head by itself. */
  lemma HeadTrim(g: Grammar, s: string)
    requires Parse(g, s).Complete?
    ensures Parse(g, s[..Parse(g, s).len]) == Parse(g, s)
  {
    var a := if |s| < MAX_REQLEN then s else s[..MAX_REQLEN];
    var k := Parse(g, s).len;
    ParseTrim(g, a, 1, k);
    assert s[..k] == a[..k];
  }

  // ---- Messages -----------------------------------------------------------------------------------------------

  datatype Msg = Msg(head: string, body: string)

  /** How far the body of a request has been read; the chunked decoder also counts what it has read and how much of that
      was not data. */
  datatype Reader = NoReader | Fixed(length: nat) | Endless | Chunks(st: ChunkDecoder.State, read: nat, overhead: int)

  /** `wire` is a whole request. */
  ghost predicate MsgWire(g: Grammar, wire: string, m: Msg) {
    var p := Parse(g, wire);
    && p.Complete? && m.head == wire[..p.len]
    && var rest := wire[p.len..];
       match p.head.entity
       case NoEntity => rest == "" && m.body == ""
       case Length(n) => |rest| == n && m.body == rest
       case ChunkedEntity => ChunkDecoder.Run(ChunkDecoder.START, rest) == ChunkDecoder.Result(ChunkDecoder.Complete,
           m.body, "")
       case BadEntity => false
  }

  /** `stream` is the requests of `ms`, one after the other. */
  ghost predicate IsStream(g: Grammar, stream: string, ms: seq<Msg>)
    decreases |ms|
  {
    if ms == [] then stream == "" else
    exists k :: 0 <= k <= |stream| && IsStream(g, stream[..k], ms[..|ms| - 1]) && MsgWire(g, stream[k..], ms[|ms| - 1])
  }

  lemma StreamSnoc(g: Grammar, stream: string, ms: seq<Msg>, wire: string, m: Msg)
    requires IsStream(g, stream, ms) && MsgWire(g, wire, m)
    ensures IsStream(g, stream + wire, ms + [m])
  {
    var s, n := stream + wire, ms + [m];
    assert n[..|n| - 1] == ms;
    assert s[..|stream|] == stream && s[|stream|..] == wire;
  }

  /** The next whole request at the front of the input, and the length it has there. */
  ghost function First(g: Grammar, s: string): (r: Option<(Msg, nat)>)
    ensures r.Some? ==> 0 < r.value.1 <= |s|
  {
    var p := Parse(g, s);
    if !p.Complete? then None else
    var rest := s[p.len..];
    match p.head.entity
    case NoEntity => Some((Msg(s[..p.len], ""), p.len))
    case Length(n) => if |rest| < n then None else Some((Msg(s[..p.len], rest[..n]), p.len + n))
    case ChunkedEntity =>
      ChunkDecoder.RunShorter(ChunkDecoder.START, rest);
      var r := ChunkDecoder.Run(ChunkDecoder.START, rest);
      if r.st.Complete? then Some((Msg(s[..p.len], r.data), |s| - |r.rest|)) else None
    case BadEntity => None
  }

  /** The sequential decomposition of a stream: as many whole requests as it has from the front. */
  ghost function Decompose(g: Grammar, s: string): seq<Msg>
    decreases |s|
  {
    var f := First(g, s);
    if f.None? then [] else [f.value.0] + Decompose(g, s[f.value.1..])
  }

  /** A whole request in front is the first of the decomposition, whatever follows it. */
  lemma FirstIs(g: Grammar, wire: string, m: Msg, rest: string)
    requires MsgWire(g, wire, m)
    ensures First(g, wire + rest) == Some((m, |wire|))
  {
    hide ChunkDecoder.Run, Parse;
    var p := Parse(g, wire);
    HeadStable(g, wire, rest);
    assert (wire + rest)[..p.len] == wire[..p.len];
    assert (wire + rest)[p.len..] == wire[p.len..] + rest;
    match p.head.entity
    case Length(n) => assert (wire[p.len..] + rest)[..n] == wire[p.len..];
    case ChunkedEntity => ChunkDecoder.RunAppend(ChunkDecoder.START, wire[p.len..], rest); assert "" + rest == rest;
    case _ =>
  }

  /** What a stream of whole requests decomposes to, with anything after it. */
  lemma {:induction false} DecomposeStream(g: Grammar, stream: string, ms: seq<Msg>, rest: string)
    requires IsStream(g, stream, ms)
    ensures Decompose(g, stream + rest) == ms + Decompose(g, rest)
    decreases |ms|
  {
    hide First, MsgWire;
    if ms == [] {
      assert stream + rest == rest;
    } else {
      var k :| 0 <= k <= |stream| && IsStream(g, stream[..k], ms[..|ms| - 1]) && MsgWire(g, stream[k..], ms[|ms| - 1]);
      var m, wire := ms[|ms| - 1], stream[k..];
      DecomposeStream(g, stream[..k], ms[..|ms| - 1], wire + rest);
      assert stream[..k] + (wire + rest) == stream + rest;
      FirstIs(g, wire, m, rest);
      assert (wire + rest)[|wire|..] == rest;
      assert ms[..|ms| - 1] + ([m] + Decompose(g, rest)) == ms + Decompose(g, rest);
    }
  }
}

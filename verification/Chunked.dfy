/** Chunked responses of lib/http1.c, and what a decoder after section 7.1 of RFC 9112 makes of them. */
module Chunked {
  import opened HexDigits
  import opened Lines
  import opened Options
  import opened Sequences

  // ---- The format ---------------------------------------------------------------------------------------

  /** The leading hexadecimal digits after those that make `v`, and what follows them. */
  function HexRun(s: string, v: nat): (r: (nat, string))
    ensures |r.1| <= |s|
  {
    if s != "" && HexVal(s[0]).Some? then HexRun(s[1..], v * 16 + HexVal(s[0]).value) else (v, s)
  }

  predicate OneLine(s: string) { '\r' !in s && '\n' !in s }

  /** What may follow the size: nothing, or extensions. */
  predicate Extension(s: string) { OneLine(s) && (s == "" || s[0] == ' ' || s[0] == '\t' || s[0] == ';') }

  /** chunk-size [ chunk-ext ] CRLF, and what follows. */
  function SizeLine(s: string): (r: Option<(nat, string)>)
    ensures r.Some? ==> |r.value.1| < |s|
  {
    if s == "" || HexVal(s[0]).None? then None else
    var size := HexRun(s, 0);
    var nl := Crlf(size.1);
    if nl.None? || !Extension(size.1[..nl.value]) then None else Some((size.0, size.1[nl.value + 2..]))
  }

  /** The trailer section and the empty line; gives what follows. */
  function Trailers(s: string): Option<string>
    decreases |s|
  {
    var nl := Crlf(s);
    if nl.None? || !OneLine(s[..nl.value]) then None
    else if nl.value == 0 then Some(s[2..])
    else Trailers(s[nl.value + 2..])
  }

  /** A complete chunked body: its data, and what follows it. */
  function Decode(s: string): Option<(string, string)>
    decreases |s|
  {
    var line := SizeLine(s);
    if line.None? then None else
    var size, r := line.value.0, line.value.1;
    if size == 0 then
      var rest := Trailers(r);
      if rest.None? then None else Some(("", rest.value))
    else if |r| < size + 2 || r[size..size + 2] != "\r\n" then None
    else
      var more := Decode(r[size + 2..]);
      if more.None? then None else Some((r[..size] + more.value.0, more.value.1))
  }

  // ---- Encoding -----------------------------------------------------------------------------------------

  datatype SendState = InProgress | Final | Failed

  function Hex(n: nat): (s: string)
    ensures s != ""
  {
    if n < 16 then [HexDigit(n)] else Hex(n / 16) + [HexDigit(n % 16)]
  }

  /** encode_chunked: what goes before and after the `size` bytes of one send. */
  method EncodeChunked(state: SendState, size: nat, trailers: bool) returns (prefix: string, suffix: string)
    ensures prefix == Prefix(size) && suffix == Suffix(state, size, trailers)
  {
    prefix, suffix := "", "";
    if size != 0 {
      prefix := Hex(size) + "\r\n";
      if state != Failed {
        suffix := "\r\n0\r\n\r\n"[..if state == Final then (if trailers then 5 else 7) else 2];
      }
    } else if state == Final {
      suffix := "0\r\n\r\n"[..if trailers then 3 else 5];
    }
    if state == Failed {
      suffix := "\r\n1\r\n";
    }
  }

  function Prefix(size: nat): string { if size == 0 then "" else Hex(size) + "\r\n" }

  /** The end of the chunk, and of the body up to its trailers; a failure leaves a chunk of one byte open. */
  function Suffix(state: SendState, size: nat, trailers: bool): string {
    match state
    case InProgress => if size == 0 then "" else "\r\n"
    case Final => (if size == 0 then "" else "\r\n") + "0\r\n" + if trailers then "" else "\r\n"
    case Failed => "\r\n1\r\n"
  }

  /** What one send puts on the wire. */
  function Emit(data: string, state: SendState, trailers: bool): string {
    Prefix(|data|) + data + Suffix(state, |data|, trailers)
  }

  function EmitAll(sends: seq<string>): string {
    if sends == [] then "" else Emit(sends[0], InProgress, false) + EmitAll(sends[1..])
  }

  // ---- Sizes read back ------------------------------------------------------------------------------------

  lemma {:induction false} HexRunStop(s: string, t: string, v: nat)
    requires forall i :: 0 <= i < |s| ==> HexVal(s[i]).Some?
    requires t == "" || HexVal(t[0]).None?
    ensures HexRun(s + t, v) == (HexRun(s, v).0, t) && HexRun(s, v).1 == ""
    decreases |s|
  {
    if s == "" {
      assert s + t == t;
    } else {
      assert (s + t)[1..] == s[1..] + t;
      HexRunStop(s[1..], t, v * 16 + HexVal(s[0]).value);
    }
  }

  lemma {:induction false} HexRunSnoc(s: string, c: char, v: nat)
    requires (forall i :: 0 <= i < |s| ==> HexVal(s[i]).Some?) && HexVal(c).Some?
    ensures HexRun(s + [c], v).0 == HexRun(s, v).0 * 16 + HexVal(c).value
    decreases |s|
  {
    if s == "" {
      assert s + [c] == [c] && [c][1..] == "";
    } else {
      assert (s + [c])[1..] == s[1..] + [c];
      HexRunSnoc(s[1..], c, v * 16 + HexVal(s[0]).value);
    }
  }

  lemma {:induction false} HexReads(n: nat)
    ensures forall i :: 0 <= i < |Hex(n)| ==> HexVal(Hex(n)[i]).Some?
    ensures HexRun(Hex(n), 0).0 == n
  {
    if n < 16 {
      assert Hex(n)[1..] == "";
    } else {
      HexReads(n / 16);
      HexRunSnoc(Hex(n / 16), HexDigit(n % 16), 0);
    }
  }

  /** The header of a chunk gives its size. */
  lemma SizeReads(n: nat, s: string)
    ensures SizeLine(Hex(n) + "\r\n" + s) == Some((n, s))
  {
    hide Hex;
    HexReads(n);
    var t := "\r\n" + s;
    HexRunStop(Hex(n), t, 0);
    assert Hex(n) + "\r\n" + s == Hex(n) + t;
    CrlfAt(t, 0);
    assert t[..0] == "" && t[2..] == s;
  }

  // ---- Bodies read back -----------------------------------------------------------------------------------

  function Prepend(data: string, r: Option<(string, string)>): Option<(string, string)> {
    if r.None? then None else Some((data + r.value.0, r.value.1))
  }

  lemma ChunkReads(data: string, s: string)
    requires data != ""
    ensures Decode(Hex(|data|) + "\r\n" + (data + "\r\n" + s)) == Prepend(data, Decode(s))
  {
    hide Hex, SizeLine;
    var r := data + "\r\n" + s;
    SizeReads(|data|, r);
    assert r[..|data|] == data && r[|data|..|data| + 2] == "\r\n" && r[|data| + 2..] == s;
  }

  /** A send in progress adds its data. */
  lemma SendReads(data: string, s: string)
    ensures Decode(Emit(data, InProgress, false) + s) == Prepend(data, Decode(s))
  {
    hide Hex, Decode;
    if data == "" {
      assert Emit(data, InProgress, false) + s == s;
      PrependNothing(Decode(s));
    } else {
      assert Emit(data, InProgress, false) + s == Hex(|data|) + "\r\n" + (data + "\r\n" + s);
      ChunkReads(data, s);
    }
  }

  lemma PrependNothing(r: Option<(string, string)>)
    ensures Prepend("", r) == r
  {
    if r.Some? { assert "" + r.value.0 == r.value.0; }
  }

  lemma {:induction false} SendsRead(sends: seq<string>, s: string)
    ensures Decode(EmitAll(sends) + s) == Prepend(Concat(sends), Decode(s))
  {
    hide Decode, Emit;
    if sends == [] {
      assert EmitAll(sends) + s == s;
      PrependNothing(Decode(s));
    } else {
      var a, b := Emit(sends[0], InProgress, false), EmitAll(sends[1..]);
      assert EmitAll(sends) + s == a + (b + s);
      SendReads(sends[0], b + s);
      SendsRead(sends[1..], s);
      PrependTwice(sends[0], Concat(sends[1..]), Decode(s));
    }
  }

  lemma PrependTwice(a: string, b: string, r: Option<(string, string)>)
    ensures Prepend(a, Prepend(b, r)) == Prepend(a + b, r)
  {
    if r.Some? { assert a + (b + r.value.0) == (a + b) + r.value.0; }
  }

  lemma LastChunk(s: string)
    ensures Decode("0\r\n" + s) == if Trailers(s).None? then None else Some(("", Trailers(s).value))
  {
    hide Trailers, SizeLine;
    SizeReads(0, s);
    assert Hex(0) + "\r\n" + s == "0\r\n" + s;
  }

  /** The final send completes the body, given what comes after the last chunk. */
  lemma FinalReads(data: string, trailers: bool, t: string)
    ensures var end := (if trailers then "" else "\r\n") + t;
            Decode(Emit(data, Final, trailers) + t) ==
            if Trailers(end).None? then None else Some((data, Trailers(end).value))
  {
    hide Hex, Decode, Trailers;
    var end := (if trailers then "" else "\r\n") + t;
    LastChunk(end);
    if data == "" {
      assert Emit(data, Final, trailers) + t == "0\r\n" + end;
    } else {
      assert Emit(data, Final, trailers) + t == Hex(|data|) + "\r\n" + (data + "\r\n" + ("0\r\n" + end));
      ChunkReads(data, "0\r\n" + end);
      assert data + "" == data;
    }
  }

  /** After a failure the body is never complete. */
  lemma FailureReads(data: string, trailers: bool)
    ensures Decode(Emit(data, Failed, trailers)).None?
  {
    hide Hex;
    if data == "" {
      assert Emit(data, Failed, trailers) == "\r\n1\r\n";
      assert HexVal('\r').None?;
    } else {
      assert Emit(data, Failed, trailers) == Hex(|data|) + "\r\n" + (data + "\r\n" + "1\r\n");
      ChunkReads(data, "1\r\n");
      SizeReads(1, "");
      assert Hex(1) + "\r\n" + "" == "1\r\n" by { HexOne(); }
    }
  }

  lemma HexOne()
    ensures Hex(1) == "1"
  {
  }

  /** The trailer of vhttp_build_server_timing_trailer, empty when there is nothing to report. */
  ghost predicate Trailer(t: string) {
    t == "" || (exists x: string :: x != "" && OneLine(x) && t == "server-timing: " + x + "\r\n\r\n")
  }

  lemma EmptyLine()
    ensures Trailers("\r\n") == Some("")
  {
    CrlfAt("\r\n", 0);
    assert "\r\n"[2..] == "" && "\r\n"[..0] == "";
  }

  lemma LineReads(line: string)
    requires line != "" && OneLine(line)
    ensures Trailers(line + "\r\n\r\n") == Some("")
  {
    var t := line + "\r\n\r\n";
    CrlfAt(t, |line|);
    assert t[..|line|] == line && t[|line| + 2..] == "\r\n";
    EmptyLine();
  }

  lemma OneLineAppend(a: string, b: string)
    requires OneLine(a) && OneLine(b)
    ensures OneLine(a + b)
  {
  }

  lemma TrailerReads(t: string)
    requires Trailer(t)
    ensures Trailers(t) == if t == "" then None else Some("")
  {
    hide Trailers, OneLine;
    if t == "" {
      NoLine();
    } else {
      var x :| x != "" && OneLine(x) && t == "server-timing: " + x + "\r\n\r\n";
      NameIsOneLine();
      OneLineAppend("server-timing: ", x);
      LineReads("server-timing: " + x);
    }
  }

  lemma NameIsOneLine()
    ensures OneLine("server-timing: ")
  {
  }

  lemma NoLine()
    ensures Trailers("") == None
  {
  }

  /** The body of a response that ends well. */
  function Body(sends: seq<string>, last: string, announced: bool, trailer: string): string {
    EmitAll(sends) + (Emit(last, Final, announced) + if announced then trailer else "")
  }

  /** A response that ends well decodes to the data sent, with nothing left over, exactly unless trailers are
      announced and there turn out to be none. */
  lemma BodyDecodes(sends: seq<string>, last: string, announced: bool, trailer: string)
    requires Trailer(trailer)
    ensures Decode(Body(sends, last, announced, trailer)) ==
            if announced && trailer == "" then None else Some((Concat(sends) + last, ""))
  {
    hide Decode, Emit, EmitAll, Trailer;
    var t := if announced then trailer else "";
    SendsRead(sends, Emit(last, Final, announced) + t);
    FinalReads(last, announced, t);
    if announced {
      TrailerReads(trailer);
      assert "" + trailer == trailer;
    } else {
      EmptyLine();
      assert "\r\n" + "" == "\r\n";
    }
  }

  /** A response that fails never decodes as complete. */
  lemma FailedNeverDecodes(sends: seq<string>, last: string, announced: bool)
    ensures Decode(EmitAll(sends) + Emit(last, Failed, announced)).None?
  {
    hide Decode, Emit, EmitAll;
    SendsRead(sends, Emit(last, Failed, announced));
    FailureReads(last, announced);
  }

  // ---- The vector of buffers --------------------------------------------------------------------------------

  const CHUNK_HEADER_SIZE := 19     // 16 digits, CRLF and the terminator

  function Sixteen(k: nat): nat { if k == 0 then 1 else 16 * Sixteen(k - 1) }

  lemma {:induction false} HexPlaces(n: nat, k: nat)
    requires k > 0 && n < Sixteen(k)
    ensures |Hex(n)| <= k
  {
    if n >= 16 { HexPlaces(n / 16, k - 1); }
  }

  /** The header of any chunk a 64-bit size can describe fits its buffer. */
  lemma PrefixFits(size: nat)
    requires size < 0x1_0000_0000_0000_0000
    ensures |Prefix(size)| + 1 <= CHUNK_HEADER_SIZE
  {
    assert Sixteen(4) == 0x1_0000;
    assert Sixteen(8) == 0x1_0000_0000;
    assert Sixteen(12) == 0x1_0000_0000_0000;
    assert Sixteen(16) == 0x1_0000_0000_0000_0000;
    HexPlaces(size, 16);
  }

  /** The buffers finalostream_send hands to the socket: the head if it is due, and the data, framed if the
      response is chunked. */
  method SendVector(head: Option<string>, inbufs: seq<string>, state: SendState, chunked: bool, trailers: bool)
      returns (bufs: seq<string>)
    ensures |bufs| <= |inbufs| + 3
    ensures var data := Concat(inbufs);
            Concat(bufs) ==
            (if head.Some? then head.value else "") + if chunked then Emit(data, state, trailers) else data
  {
    hide Hex, Suffix;
    var size := 0;
    var first: seq<string> := [];
    if head.Some? {
      first := [head.value];
      assert first[1..] == [];
    }
    var data: seq<string> := [];
    for i := 0 to |inbufs|
      invariant data == inbufs[..i] && size == |Concat(inbufs[..i])|
    {
      ConcatSnoc(inbufs[..i], inbufs[i]);
      assert inbufs[..i + 1] == inbufs[..i] + [inbufs[i]];
      data := data + [inbufs[i]];
      size := size + |inbufs[i]|;
    }
    assert inbufs[..|inbufs|] == inbufs;
    if !chunked {
      ConcatAppend(first, data);
      return first + data;
    }
    var prefix, suffix := EncodeChunked(state, size, trailers);
    ConcatSnoc(first, prefix);
    ConcatAppend(first + [prefix], data);
    bufs := first + [prefix] + data;
    if |suffix| != 0 {
      ConcatSnoc(bufs, suffix);
      bufs := bufs + [suffix];
    }
  }
}

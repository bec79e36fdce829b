/** The incremental decoder of chunked request bodies (deps/picohttpparser/picohttpparser.c), which keeps its state
    between reads and compacts the data in place. */
module ChunkDecoder {
  import opened HexDigits
  import opened Lines
  import opened Options
  import opened Sequences
  import Chunked

  // ---- One byte at a time ---------------------------------------------------------------------------------

  const MAX_HEX := 16

  /** Where the decoder is: in a chunk size of value `v` and `n` digits, in the rest of its line, in data, between
      data and the next size, at the start of a trailer line, inside one, past the body, or at an error. */
  datatype State =
      Size(v: nat, n: nat) | Ext(v: nat) | Data(left: nat) | Crlf | LineHead | LineMiddle | Complete | Broken

  const START := Size(0, 0)

  function AfterLine(v: nat): State { if v == 0 then LineHead else Data(v) }

  function ExtStep(v: nat, c: char): State { if c == '\n' then AfterLine(v) else Ext(v) }

  predicate AfterSize(c: char) { c == ' ' || c == '\t' || c == ';' || c == '\n' || c == '\r' }

  function SizeStep(v: nat, n: nat, c: char): State {
    var d := HexVal(c);
    if d.Some? then (if n == MAX_HEX then Broken else Size(v * 16 + d.value, n + 1))
    else if n == 0 || !AfterSize(c) then Broken
    else ExtStep(v, c)
  }

  function Step(st: State, c: char): State {
    match st
    case Size(v, n) => SizeStep(v, n, c)
    case Ext(v) => ExtStep(v, c)
    case Data(left) => if left <= 1 then Crlf else Data(left - 1)
    case Crlf => if c == '\r' then Crlf else if c == '\n' then START else Broken
    case LineHead => if c == '\r' then LineHead else if c == '\n' then Complete else LineMiddle
    case LineMiddle => if c == '\n' then LineHead else LineMiddle
    case Complete => Complete
    case Broken => Broken
  }

  predicate Ended(st: State) { st.Complete? || st.Broken? }

  /** The state reached, the data met, and what is left when the body has ended. */
  datatype Result = Result(st: State, data: string, rest: string)

  function Run(st: State, s: string): Result
    decreases |s|
  {
    if Ended(st) || s == "" then Result(st, "", s) else
    var r := Run(Step(st, s[0]), s[1..]);
    if st.Data? then Result(r.st, [s[0]] + r.data, r.rest) else r
  }

  /** Decoding in two pieces is decoding in one. */
  lemma {:induction false} RunAppend(st: State, a: string, b: string)
    ensures var r := Run(st, a);
            if Ended(r.st) then Run(st, a + b) == Result(r.st, r.data, r.rest + b)
            else r.rest == "" &&
                 Run(st, a + b) == Result(Run(r.st, b).st, r.data + Run(r.st, b).data, Run(r.st, b).rest)
    decreases |a|
  {
    hide Step;
    if Ended(st) {
    } else if a == "" {
      assert a + b == b;
    } else {
      assert (a + b)[1..] == a[1..] + b;
      RunAppend(Step(st, a[0]), a[1..], b);
      var r := Run(Step(st, a[0]), a[1..]);
      if !Ended(r.st) && st.Data? {
        assert [a[0]] + (r.data + Run(r.st, b).data) == ([a[0]] + r.data) + Run(r.st, b).data;
      }
    }
  }

  lemma {:induction false} RunShorter(st: State, s: string)
    ensures |Run(st, s).data| + |Run(st, s).rest| <= |s|
    ensures !Ended(Run(st, s).st) ==> Run(st, s).rest == ""
    decreases |s|
  {
    if !Ended(st) && s != "" { RunShorter(Step(st, s[0]), s[1..]); }
  }

  /** What is left is the end of the input, and the bytes before it are a whole body. */
  lemma {:induction false} RunTrim(st: State, s: string)
    ensures |Run(st, s).rest| <= |s| && s[|s| - |Run(st, s).rest|..] == Run(st, s).rest
    ensures Ended(Run(st, s).st) ==> Run(st, s[..|s| - |Run(st, s).rest|]) == Result(Run(st, s).st, Run(st, s).data, "")
    decreases |s|
  {
    hide Step;
    if Ended(st) || s == "" {
      assert s[0..] == s && s[..0] == "";
    } else {
      RunTrim(Step(st, s[0]), s[1..]);
      var k := |s| - |Run(st, s).rest|;
      if Ended(Run(st, s).st) {
        RunShorterStep(st, s);
        assert s[..k][1..] == s[1..][..k - 1] && s[..k][0] == s[0];
      }
    }
  }

  lemma RunShorterStep(st: State, s: string)
    requires !Ended(st) && s != ""
    ensures |Run(st, s).rest| <= |s| - 1
  {
    RunShorter(Step(st, s[0]), s[1..]);
  }

  // ---- The decoder ------------------------------------------------------------------------------------------

  datatype Verdict = Incomplete | Error | Done(left: nat)

  /** memmove towards the front. */
  method MoveDown(buf: array<char>, dst: nat, src: nat, n: nat)
    requires dst <= src && src + n <= buf.Length
    modifies buf
    ensures buf[dst..dst + n] == old(buf[src..src + n])
    ensures forall i :: 0 <= i < buf.Length && !(dst <= i < dst + n) ==> buf[i] == old(buf[i])
  {
    var i := 0;
    while i < n
      invariant 0 <= i <= n
      invariant forall k :: dst <= k < dst + i ==> buf[k] == old(buf[k - dst + src])
      invariant forall k :: 0 <= k < buf.Length && !(dst <= k < dst + i) ==> buf[k] == old(buf[k])
    {
      buf[dst + i] := buf[src + i];
      i := i + 1;
    }
  }

  /** Moves the next `n` bytes to the data in front, if they are not there. */
  method MoveChunk(buf: array<char>, bufsz: nat, dst: nat, src: nat, n: nat, ghost s0: string)
    requires dst <= src <= src + n <= bufsz == |s0| && bufsz <= buf.Length && buf[src..bufsz] == s0[src..]
    modifies buf
    ensures buf[..dst + n] == old(buf[..dst]) + s0[src..src + n] && buf[src + n..bufsz] == s0[src + n..]
  {
    ghost var front, chunk := buf[..dst], s0[src..src + n];
    assert forall i :: src <= i < bufsz ==> buf[i] == buf[src..bufsz][i - src] == s0[src..][i - src] == s0[i];
    assert buf[src..src + n] == chunk;
    if dst != src {
      MoveDown(buf, dst, src, n);
    }
    assert buf[..dst + n] == buf[..dst] + buf[dst..dst + n];
    assert buf[..dst] == front;
  }

  lemma RunStep(st: State, s: string)
    requires !Ended(st) && s != ""
    ensures var r := Run(Step(st, s[0]), s[1..]); Run(st, s) == if st.Data? then Prefixed([s[0]], r) else r
  {
    hide Step;
  }

  /** With no data met, the first `k` bytes take the state from `st` to `st'`. */
  ghost predicate Takes(st: State, s: string, k: nat, st': State) { k <= |s| && Run(st, s) == Run(st', s[k..]) }

  lemma TakesNone(st: State, s: string)
    ensures Takes(st, s, 0, st)
  {
    assert s[0..] == s;
  }

  lemma TakesOne(st: State, s: string, k: nat, st': State)
    requires Takes(st, s, k, st') && k < |s| && !Ended(st') && !st'.Data?
    ensures Takes(st, s, k + 1, Step(st', s[k]))
  {
    RunStep(st', s[k..]);
    assert s[k..][1..] == s[k + 1..];
  }

  lemma TakesBroken(st: State, s: string, k: nat)
    requires Takes(st, s, k, Broken)
    ensures Run(st, s).st.Broken?
  {
  }

  function Prefixed(data: string, r: Result): Result { Result(r.st, data + r.data, r.rest) }

  lemma DataStep(left: nat, s: string)
    requires s != ""
    ensures Run(Data(left), s) == Prefixed([s[0]], Run(if left <= 1 then Crlf else Data(left - 1), s[1..]))
  {
    hide Run;
    RunStep(Data(left), s);
  }

  function After(left: nat, n: nat): State
    requires n <= left
  {
    if n == left then Crlf else Data(left - n)
  }

  /** Data up to the end of the chunk or of the input. */
  lemma {:induction false} RunData(left: nat, s: string, n: nat)
    requires 0 < left && n <= left && n <= |s|
    ensures Run(Data(left), s) == Prefixed(s[..n], Run(After(left, n), s[n..]))
    decreases n
  {
    hide Run;
    if n == 0 {
      assert s[0..] == s && s[..0] == "";
      assert "" + Run(Data(left), s).data == Run(Data(left), s).data;
    } else {
      DataStep(left, s);
      if left == 1 {
        assert s[..1] == [s[0]];
      } else {
        RunData(left - 1, s[1..], n - 1);
        assert s[1..][n - 1..] == s[n..];
        assert s[..n] == [s[0]] + s[1..][..n - 1];
        var r := Run(After(left, n), s[n..]);
        assert [s[0]] + (s[1..][..n - 1] + r.data) == s[..n] + r.data;
      }
    }
  }

  lemma PrefixedTwice(a: string, b: string, r: Result)
    ensures Prefixed(a, Prefixed(b, r)) == Prefixed(a + b, r)
  {
    assert a + (b + r.data) == (a + b) + r.data;
  }

  lemma MoreData(st: State, s0: string, front: string, left: nat, src: nat, n: nat)
    requires src + n <= |s0| && 0 < left && n <= left && Run(st, s0) == Prefixed(front, Run(Data(left), s0[src..]))
    ensures Run(st, s0) == Prefixed(front + s0[src..src + n], Run(After(left, n), s0[src + n..]))
  {
    hide Run;
    var rest := s0[src..];
    RunData(left, rest, n);
    assert rest[n..] == s0[src + n..];
    assert rest[..n] == s0[src..src + n];
    PrefixedTwice(front, rest[..n], Run(After(left, n), rest[n..]));
  }

  datatype Scanned = Going | Failed | Finished

  /** Too much of what was read was not data. */
  predicate Wasteful(read: nat, overhead: int) { overhead >= 100 * 1024 && read - overhead < read / 4 }

  lemma RunComplete(s: string)
    ensures Run(Complete, s) == Result(Complete, "", s)
  {
  }

  lemma RunNothing(st: State)
    ensures Run(st, "") == Result(st, "", "")
  {
  }

  /** The byte that ends the digits is read again as part of the line. */
  lemma TakesSame(v: nat, s: string, k: nat, n: nat)
    requires k < |s| && HexVal(s[k]).None? && AfterSize(s[k]) && n > 0
    ensures Run(Size(v, n), s[k..]) == Run(Ext(v), s[k..])
  {
    RunStep(Size(v, n), s[k..]);
    RunStep(Ext(v), s[k..]);
  }

  datatype Phase = InSize | InExt | InData | InCrlf | InLineHead | InLineMiddle

  class Decoder {
    var phase: Phase
    var left: nat
    var hex: nat
    var totalRead: nat
    var totalOverhead: nat

    constructor ()
      ensures Valid() && St() == START && totalRead == totalOverhead == 0
    {
      phase, left, hex, totalRead, totalOverhead := InSize, 0, 0, 0, 0;
    }

    ghost predicate Valid()
      reads this
    {
      && hex <= MAX_HEX && (phase.InData? ==> left > 0) && (phase.InCrlf? ==> left == 0)
      && (!phase.InSize? ==> hex == 0)
      && totalOverhead <= totalRead
    }

    ghost function St(): State
      reads this
    {
      match phase
      case InSize => Size(left, hex)
      case InExt => Ext(left)
      case InData => Data(left)
      case InCrlf => Crlf
      case InLineHead => LineHead
      case InLineMiddle => LineMiddle
    }

    /** The digits of a chunk size. */
    method ReadSize(s: string) returns (k: nat, ok: bool)
      requires Valid() && phase.InSize?
      modifies this`phase, this`left, this`hex
      ensures k <= |s|
      ensures !ok ==> Run(old(St()), s).st.Broken?
      ensures ok ==> Valid() && (phase.InSize? ==> k == |s|) && (phase.InSize? || phase.InExt?)
      ensures ok && phase.InSize? ==> Takes(old(St()), s, k, St())
      ensures ok && phase.InExt? ==> k < |s| && Run(old(St()), s) == Run(Ext(left), s[k..])
    {
      hide Run;
      k, ok := 0, true;
      ghost var st := St();
      TakesNone(st, s);
      while true
        invariant 0 <= k <= |s| && Valid() && phase.InSize? && Takes(st, s, k, Size(left, hex))
        decreases |s| - k
      {
        if k == |s| {
          return;
        }
        var v := HexVal(s[k]);
        TakesOne(st, s, k, Size(left, hex));
        if v.None? {
          if hex == 0 {
            TakesBroken(st, s, k + 1);
            return k, false;
          }
          if !AfterSize(s[k]) {
            TakesBroken(st, s, k + 1);
            return k, false;
          }
          break;
        }
        if hex == MAX_HEX {
          TakesBroken(st, s, k + 1);
          return k, false;
        }
        left, hex := left * 16 + v.value, hex + 1;
        k := k + 1;
      }
      TakesSame(left, s, k, hex);
      hex, phase := 0, InExt;
    }

    /** The rest of the size line. */
    method ReadExt(s: string) returns (k: nat)
      requires Valid() && phase.InExt?
      modifies this`phase
      ensures k <= |s| && Valid() && Takes(old(St()), s, k, St()) && (phase.InExt? ==> k == |s|)
          && (!phase.InExt? ==> k > 0) && (phase.InExt? || phase.InData? || phase.InLineHead?)
    {
      hide Run;
      k := 0;
      ghost var st := St();
      TakesNone(st, s);
      while true
        invariant 0 <= k <= |s| && Valid() && phase.InExt? && Takes(st, s, k, Ext(left))
        decreases |s| - k
      {
        if k == |s| {
          return;
        }
        TakesOne(st, s, k, Ext(left));
        if s[k] == '\n' {
          break;
        }
        k := k + 1;
      }
      k := k + 1;
      phase := if left == 0 then InLineHead else InData;
    }

    /** The line end after data. */
    method ReadCrlf(s: string) returns (k: nat, ok: bool)
      requires Valid() && phase.InCrlf?
      modifies this`phase
      ensures k <= |s| && (!ok ==> Run(Crlf, s).st.Broken?)
      ensures ok ==>
          Valid() && Takes(Crlf, s, k, St()) && (phase.InCrlf? ==> k == |s|) && (!phase.InCrlf? ==> k > 0)
          && (phase.InCrlf? || phase.InSize?)
    {
      hide Run;
      k, ok := 0, true;
      TakesNone(Crlf, s);
      while true
        invariant 0 <= k <= |s| && Valid() && phase.InCrlf? && Takes(Crlf, s, k, Crlf)
        decreases |s| - k
      {
        if k == |s| {
          return;
        }
        TakesOne(Crlf, s, k, Crlf);
        if s[k] != '\r' {
          break;
        }
        k := k + 1;
      }
      if s[k] != '\n' {
        TakesBroken(Crlf, s, k + 1);
        return k, false;
      }
      k := k + 1;
      phase := InSize;
    }

    /** The start of a trailer line; `done` at the empty one. */
    method ReadLineHead(s: string) returns (k: nat, done: bool)
      requires Valid() && phase.InLineHead?
      modifies this`phase
      ensures k <= |s| && (done ==> Takes(LineHead, s, k, Complete))
      ensures !done ==>
          Valid() && Takes(LineHead, s, k, St()) && (phase.InLineHead? ==> k == |s|)
          && (!phase.InLineHead? ==> k > 0) && (phase.InLineHead? || phase.InLineMiddle?)
    {
      hide Run;
      k, done := 0, false;
      TakesNone(LineHead, s);
      while true
        invariant 0 <= k <= |s| && Valid() && phase.InLineHead? && Takes(LineHead, s, k, LineHead)
        decreases |s| - k
      {
        if k == |s| {
          return;
        }
        TakesOne(LineHead, s, k, LineHead);
        if s[k] != '\r' {
          break;
        }
        k := k + 1;
      }
      k := k + 1;
      if s[k - 1] == '\n' {
        return k, true;
      }
      phase := InLineMiddle;
    }

    /** The rest of a trailer line. */
    method ReadLineMiddle(s: string) returns (k: nat)
      requires Valid() && phase.InLineMiddle?
      modifies this`phase
      ensures k <= |s| && Valid() && Takes(LineMiddle, s, k, St()) && (phase.InLineMiddle? ==> k == |s|)
          && (!phase.InLineMiddle? ==> k > 0) && (phase.InLineMiddle? || phase.InLineHead?)
    {
      hide Run;
      k := 0;
      TakesNone(LineMiddle, s);
      while true
        invariant 0 <= k <= |s| && Valid() && phase.InLineMiddle? && Takes(LineMiddle, s, k, LineMiddle)
        decreases |s| - k
      {
        if k == |s| {
          return;
        }
        TakesOne(LineMiddle, s, k, LineMiddle);
        if s[k] == '\n' {
          break;
        }
        k := k + 1;
      }
      k := k + 1;
      phase := InLineHead;
    }

    /** Where decoding `s0` from `st` has got: `src` bytes read, the data of them moved to the front. */
    ghost predicate Progress(st: State, s0: string, buf: array<char>, bufsz: nat, dst: nat, src: nat)
      reads this, buf
    {
      && dst <= src <= bufsz == |s0| && bufsz <= buf.Length && Valid() && buf[src..bufsz] == s0[src..]
      && Run(st, s0) == Prefixed(buf[..dst], Run(St(), s0[src..]))
    }

    /** The data of a chunk, as much as there is; `more` if the chunk is complete. */
    method ReadData(buf: array<char>, bufsz: nat, dst0: nat, src0: nat, ghost st: State, ghost s0: string)
        returns (dst: nat, src: nat, more: bool)
      requires phase.InData? && Progress(st, s0, buf, bufsz, dst0, src0)
      modifies this`phase, this`left, buf
      ensures Progress(st, s0, buf, bufsz, dst, src)
      ensures if more then phase.InCrlf? && src > src0 else phase.InData? && src == bufsz
    {
      hide Run;
      var avail := bufsz - src0;
      var n := if avail < left then avail else left;
      MoreData(st, s0, buf[..dst0], left, src0, n);
      MoveChunk(buf, bufsz, dst0, src0, n, s0);
      dst, src := dst0 + n, src0 + n;
      left := left - n;
      more := left == 0;
      if more {
        phase := InCrlf;
      }
    }

    /** The parts between the data; Failed at an error, Finished past the last line. */
    method ReadFraming(s: string) returns (k: nat, how: Scanned)
      requires Valid() && !phase.InData?
      modifies this`phase, this`left, this`hex
      ensures k <= |s|
      ensures how.Failed? ==> Run(old(St()), s).st.Broken?
      ensures how.Finished? ==> Takes(old(St()), s, k, Complete)
      ensures how.Going? ==>
          Valid() && Takes(old(St()), s, k, St())
          && (k > 0 || k == |s| || (old(phase).InSize? && !phase.InSize?))
    {
      hide Run;
      how := Going;
      if phase.InSize? {
        var ok;
        k, ok := ReadSize(s);
        how := if ok then Going else Failed;
      } else if phase.InExt? {
        k := ReadExt(s);
      } else if phase.InCrlf? {
        var ok;
        k, ok := ReadCrlf(s);
        how := if ok then Going else Failed;
      } else if phase.InLineHead? {
        var done;
        k, done := ReadLineHead(s);
        how := if done then Finished else Going;
      } else {
        k := ReadLineMiddle(s);
      }
    }

    /** The loop of phr_decode_chunked. */
    method Scan(buf: array<char>, bufsz: nat, ghost st: State, ghost s0: string)
        returns (dst: nat, src: nat, how: Scanned)
      requires Valid() && bufsz <= buf.Length && st == St() && s0 == buf[..bufsz]
      modifies this`phase, this`left, this`hex, buf
      ensures dst <= src <= bufsz && (how.Failed? ==> Run(st, s0).st.Broken?)
      ensures how.Going? ==> src == bufsz && Progress(st, s0, buf, bufsz, dst, src)
      ensures how.Finished? ==> buf[src..bufsz] == s0[src..] && Run(st, s0) == Result(Complete, buf[..dst], s0[src..])
    {
      hide Run;
      dst, src, how := 0, 0, Going;
      assert s0[0..] == s0 && buf[..0] == "";
      assert "" + Run(st, s0).data == Run(st, s0).data;
      while src < bufsz || phase.InData?
        invariant Progress(st, s0, buf, bufsz, dst, src) && how.Going?
        decreases bufsz - src, if phase.InSize? then 1 else 0
      {
        if phase.InData? {
          var more;
          dst, src, more := ReadData(buf, bufsz, dst, src, st, s0);
          if !more {
            return;
          }
        } else {
          ghost var rest := s0[src..];
          var k;
          k, how := ReadFraming(buf[src..bufsz]);
          assert rest[k..] == s0[src + k..];
          if how.Failed? {
            return;
          }
          src := src + k;
          if how.Finished? {
            RunComplete(s0[src..]);
            return;
          }
        }
      }
    }

    /** phr_decode_chunked on the first `bufsz` bytes of `buf`: the data ends up in front, followed, when the body is
        complete, by the bytes that come after it. */
    method DecodeChunked(buf: array<char>, bufsz: nat) returns (dst: nat, ret: Verdict)
      requires Valid() && bufsz <= buf.Length
      modifies this, buf
      ensures var r := Run(old(St()), old(buf[..bufsz]));
              && dst <= bufsz && (ret.Done? <==> r.st.Complete?)
              && (ret.Error? <==> r.st.Broken? || (!Ended(r.st) && Wasteful(old(totalRead) + bufsz,
                  old(totalOverhead) + bufsz - |r.data|)))
              && (!ret.Error? ==> buf[..dst] == r.data)
              && (ret.Done? ==> dst + ret.left <= bufsz && buf[dst..dst + ret.left] == r.rest)
              && (ret.Incomplete? ==> Valid() && St() == r.st)
              && (ret.Incomplete? ==>
                    totalRead == old(totalRead) + bufsz && totalOverhead == old(totalOverhead) + bufsz - |r.data|)
    {
      hide Run;
      ghost var st, s0 := St(), buf[..bufsz];
      totalRead := totalRead + bufsz;
      var src, how;
      dst, src, how := Scan(buf, bufsz, st, s0);
      if how.Failed? {
        return dst, Error;
      }
      if how.Finished? {
        ghost var front := buf[..dst];
        if dst != src {
          MoveDown(buf, dst, src, bufsz - src);
        }
        assert buf[..dst] == front;
        return dst, Done(bufsz - src);
      }
      RunNothing(St());
      assert s0[src..] == "" && buf[..dst] + "" == buf[..dst];
      totalOverhead := totalOverhead + bufsz - dst;
      if totalOverhead >= 100 * 1024 && totalRead - totalOverhead < totalRead / 4 {
        return dst, Error;
      }
      return dst, Incomplete;
    }
  }

  // ---- What RFC 9112 describes is decoded --------------------------------------------------------------------

  /** The sizes have at most 16 digits. */
  ghost predicate Fits(s: string)
    decreases |s|
  {
    Chunked.SizeLine(s).Some? ==>
      var line := Chunked.SizeLine(s).value;
      && |s| - |Chunked.HexRun(s, 0).1| <= MAX_HEX
      && (0 < line.0 && line.0 + 2 <= |line.1| ==> Fits(line.1[line.0 + 2..]))
  }

  lemma {:induction false} RunHex(s: string, v: nat, n: nat)
    requires n + |s| - |Chunked.HexRun(s, v).1| <= MAX_HEX
    ensures var d := Chunked.HexRun(s, v);
            Run(Size(v, n), s) == Run(Size(d.0, n + |s| - |d.1|), d.1)
    decreases |s|
  {
    hide Run;
    if s != "" && HexVal(s[0]).Some? {
      RunStep(Size(v, n), s);
      RunHex(s[1..], v * 16 + HexVal(s[0]).value, n + 1);
    }
  }

  /** To the end of the line. */
  lemma {:induction false} RunExt(v: nat, s: string, i: nat)
    requires i + 2 <= |s| && s[i] == '\r' && s[i + 1] == '\n' && Chunked.OneLine(s[..i])
    ensures Run(Ext(v), s) == Run(AfterLine(v), s[i + 2..])
    decreases i
  {
    hide Run;
    RunStep(Ext(v), s);
    if i > 0 {
      assert s[..i][1..] == s[1..][..i - 1] && s[..i][0] == s[0];
      RunExt(v, s[1..], i - 1);
      assert s[1..][i + 1..] == s[i + 2..];
    } else {
      RunStep(Ext(v), s[1..]);
      assert s[1..][1..] == s[2..];
    }
  }

  lemma {:induction false} RunMiddle(s: string, i: nat)
    requires i + 2 <= |s| && s[i] == '\r' && s[i + 1] == '\n' && Chunked.OneLine(s[..i])
    ensures Run(LineMiddle, s) == Run(LineHead, s[i + 2..])
    decreases i
  {
    hide Run;
    RunStep(LineMiddle, s);
    if i > 0 {
      assert s[..i][1..] == s[1..][..i - 1] && s[..i][0] == s[0];
      RunMiddle(s[1..], i - 1);
      assert s[1..][i + 1..] == s[i + 2..];
    } else {
      RunStep(LineMiddle, s[1..]);
      assert s[1..][1..] == s[2..];
    }
  }

  /** The first line of a trailer section. */
  lemma TrailerLine(s: string) returns (i: nat)
    requires Chunked.Trailers(s).Some?
    ensures i + 2 <= |s| && s[i] == '\r' && s[i + 1] == '\n' && Chunked.OneLine(s[..i])
    ensures Chunked.Trailers(s) == if i == 0 then Some(s[2..]) else Chunked.Trailers(s[i + 2..])
  {
    i := Lines.Crlf(s).value;
  }

  lemma {:induction false} RunTrailers(s: string)
    requires Chunked.Trailers(s).Some?
    ensures Run(LineHead, s) == Result(Complete, "", Chunked.Trailers(s).value)
    decreases |s|
  {
    hide Run, Chunked.Trailers;
    var i := TrailerLine(s);
    RunStep(LineHead, s);
    if i == 0 {
      RunStep(LineHead, s[1..]);
      assert s[1..][1..] == s[2..];
      RunComplete(s[2..]);
    } else {
      assert s[..i][0] == s[0] && s[..i][1..] == s[1..][..i - 1];
      RunMiddle(s[1..], i - 1);
      assert s[1..][i + 1..] == s[i + 2..];
      RunTrailers(s[i + 2..]);
    }
  }

  lemma RunSizeLine(s: string)
    requires Chunked.SizeLine(s).Some? && |s| - |Chunked.HexRun(s, 0).1| <= MAX_HEX
    ensures Run(START, s) == Run(AfterLine(Chunked.SizeLine(s).value.0), Chunked.SizeLine(s).value.1)
  {
    hide Run, Chunked.HexRun;
    var r := Chunked.HexRun(s, 0);
    HexRunEnds(s, 0);
    RunHex(s, 0, 0);
    var n := |s| - |r.1|;
    var i := Lines.Crlf(r.1).value;
    assert r.1[0..] == r.1;
    assert i > 0 ==> r.1[..i][0] == r.1[0];
    TakesSame(r.0, r.1, 0, n);
    RunExt(r.0, r.1, i);
  }

  lemma {:induction false} HexRunEnds(s: string, v: nat)
    ensures var r := Chunked.HexRun(s, v);
            (r.1 != "" ==> HexVal(r.1[0]).None?) && (s != "" && HexVal(s[0]).Some? ==> |r.1| < |s|)
    decreases |s|
  {
    if s != "" && HexVal(s[0]).Some? { HexRunEnds(s[1..], v * 16 + HexVal(s[0]).value); }
  }

  /** A body that is complete under section 7.1 of RFC 9112 is decoded to the same data, and what follows it is left. */
  lemma {:induction false} CompleteBodyDecodes(s: string)
    requires Chunked.Decode(s).Some? && Fits(s)
    ensures Run(START, s) == Result(Complete, Chunked.Decode(s).value.0, Chunked.Decode(s).value.1)
    decreases |s|
  {
    hide Run, Chunked.SizeLine, Chunked.Trailers, Chunked.HexRun;
    var line := Chunked.SizeLine(s).value;
    var size, r := line.0, line.1;
    RunSizeLine(s);
    if size == 0 {
      RunTrailers(r);
    } else {
      RunData(size, r, size);
      var t := r[size..];
      assert t[0] == r[size..size + 2][0] == '\r' && t[1] == r[size..size + 2][1] == '\n';
      RunStep(Crlf, t);
      RunStep(Crlf, t[1..]);
      assert t[1..][1..] == r[size + 2..];
      CompleteBodyDecodes(r[size + 2..]);
    }
  }

  // ---- Bodies in pieces --------------------------------------------------------------------------------------

  /** `s` is read in these pieces. */
  predicate Cut(pieces: seq<string>, s: string) { Concat(pieces) == s && forall p :: p in pieces ==> p != "" }

  /** The overhead guard ends the decoding at one of the pieces. */
  ghost predicate Stopped(st: State, read: nat, overhead: int, pieces: seq<string>)
    decreases |pieces|
  {
    pieces != [] &&
    var p := pieces[0];
    var r := Run(st, p);
    var read', overhead' := read + |p|, overhead + |p| - |r.data|;
    !Ended(r.st) && (Wasteful(read', overhead') || Stopped(r.st, read', overhead', pieces[1..]))
  }

  /** The body in pieces, until it ends or is refused: unless the overhead guard ends it, the outcome and the data are
      those of the whole. */
  method DecodeAll(pieces: seq<string>) returns (data: string, ret: Verdict)
    ensures Stopped(START, 0, 0, pieces) ==> ret.Error?
    ensures var r := Run(START, Concat(pieces));
            !Stopped(START, 0, 0, pieces) ==>
              && (ret.Done? <==> r.st.Complete?) && (ret.Error? <==> r.st.Broken?) && (!ret.Error? ==> data == r.data)
  {
    hide Run, Concat, Wasteful;
    var d := new Decoder();
    data, ret := "", Incomplete;
    RunNothing(START);
    assert pieces[..0] == [] && pieces[0..] == pieces;
    ConcatNone();
    for i := 0 to |pieces|
      invariant fresh(d) && d.Valid() && ret.Incomplete?
      invariant Run(START, Concat(pieces[..i])) == Result(d.St(), data, "")
      invariant Stopped(START, 0, 0, pieces) <==> Stopped(d.St(), d.totalRead, d.totalOverhead, pieces[i..])
    {
      var p := pieces[i];
      ghost var st := d.St();
      var buf := new char[|p|](k requires 0 <= k < |p| => p[k]);
      assert buf[..|p|] == p;
      assert pieces[i..][0] == p && pieces[i..][1..] == pieces[i + 1..];
      ConcatTake(pieces, i);
      RunAppend(START, Concat(pieces[..i]), p);
      RunShorter(st, p);
      var dst;
      dst, ret := d.DecodeChunked(buf, |p|);
      if !ret.Error? {
        data := data + buf[..dst];
      }
      if !ret.Incomplete? {
        if Ended(Run(st, p).st) { EndsHere(pieces, i + 1); }
        return;
      }
    }
    assert pieces[..|pieces|] == pieces;
  }

  lemma ConcatNone()
    ensures Concat<char>([]) == ""
  {
  }

  /** What comes after the end of a body changes neither its state nor its data. */
  lemma EndsHere(pieces: seq<string>, n: nat)
    requires n <= |pieces| && Ended(Run(START, Concat(pieces[..n])).st)
    ensures Run(START, Concat(pieces)).st == Run(START, Concat(pieces[..n])).st
    ensures Run(START, Concat(pieces)).data == Run(START, Concat(pieces[..n])).data
  {
    hide Run, Concat;
    assert pieces == pieces[..n] + pieces[n..];
    ConcatAppend(pieces[..n], pieces[n..]);
    RunAppend(START, Concat(pieces[..n]), Concat(pieces[n..]));
  }

  /** A read that ended after `k` bytes would find too much overhead. */
  ghost predicate WastefulAt(s: string, k: nat) {
    k <= |s| && !Ended(Run(START, s[..k]).st) && Wasteful(k, k - |Run(START, s[..k]).data|)
  }

  lemma {:induction false} StoppedAt(s: string, k: nat, pieces: seq<string>) returns (n: nat)
    requires k <= |s| && Concat(pieces) == s[k..] && !Ended(Run(START, s[..k]).st)
    requires Stopped(Run(START, s[..k]).st, k, k - |Run(START, s[..k]).data|, pieces)
    ensures WastefulAt(s, n)
    decreases |pieces|
  {
    hide Run, Wasteful;
    var p := pieces[0];
    n := k + |p|;
    assert s[k..] == p + Concat(pieces[1..]);
    assert s[..n] == s[..k] + p && s[n..] == s[k..][|p|..] == Concat(pieces[1..]);
    RunAppend(START, s[..k], p);
    if !Wasteful(n, n - |Run(START, s[..n]).data|) { n := StoppedAt(s, n, pieces[1..]); }
  }

  /** Some way of reading `s` in pieces is stopped for overhead exactly when some prefix that does not end the body has
      too much of it. */
  lemma StoppedIff(s: string)
    ensures (exists pieces :: Cut(pieces, s) && Stopped(START, 0, 0, pieces)) <==> exists k :: WastefulAt(s, k)
  {
    hide Run, Wasteful;
    assert s[..0] == "" && s[0..] == s;
    RunNothing(START);
    if pieces :| Cut(pieces, s) && Stopped(START, 0, 0, pieces) {
      var k := StoppedAt(s, 0, pieces);
    }
    if k :| WastefulAt(s, k) { StoppedThere(s, k); }
  }

  lemma StoppedThere(s: string, k: nat)
    requires WastefulAt(s, k)
    ensures exists pieces :: Cut(pieces, s) && Stopped(START, 0, 0, pieces)
  {
    hide Run;
    assert k > 0;
    var pieces := if k == |s| then [s[..k]] else [s[..k], s[k..]];
    assert pieces[0] == s[..k] && s == s[..k] + s[k..];
    assert Concat(pieces[1..]) == s[k..] by {
      if k == |s| { assert pieces[1..] == []; } else { assert pieces[1..] == [s[k..]] && [s[k..]][1..] == []; }
    }
    assert Cut(pieces, s) && Stopped(START, 0, 0, pieces);
  }

  lemma {:induction false} RunInExt(v: nat, s: string)
    requires '\n' !in s
    ensures Run(Ext(v), s) == Result(Ext(v), "", "")
    decreases |s|
  {
    if s != "" { RunInExt(v, s[1..]); }
  }

  /** A body whose last chunk has a long extension is complete when it comes in one piece, and refused when a read ends
      inside the extension. */
  lemma CutsDiffer() returns (s: string, pieces: seq<string>)
    ensures Run(START, s) == Result(Complete, "", "") && Cut([s], s) && !Stopped(START, 0, 0, [s])
    ensures Cut(pieces, s) && Stopped(START, 0, 0, pieces)
  {
    hide Run;
    var ext: string := seq(100 * 1024, _ => 'x');
    var head := "0;" + ext;
    s := head + "\n\n";
    RunStep(START, head);
    RunStep(Size(0, 1), head[1..]);
    assert head[1..][1..] == ext && head[1..][0] == ';';
    RunInExt(0, ext);
    RunAppend(START, head, "\n\n");
    RunStep(Ext(0), "\n\n");
    RunStep(LineHead, "\n\n"[1..]);
    RunComplete("");
    assert "\n\n"[1..] == "\n" && "\n"[1..] == "";
    assert [s][1..] == [] && s + "" == s;
    assert Concat([s]) == s by { assert Concat([s]) == [s][0] + Concat([s][1..]); }
    assert s[..|head|] == head;
    StoppedThere(s, |head|);
    pieces :| Cut(pieces, s) && Stopped(START, 0, 0, pieces);
  }
}

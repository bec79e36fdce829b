/** Writing the Redis protocol (deps/hiredis/hiredis.c, sds.c): decimal numbers, commands, and the encoding of
    replies that the reader undoes. */
module RespFormat {
  import opened Options
  import opened Lines
  import opened RespReader

  // ---- Decimal numbers ------------------------------------------------------------------------------

  function Digit(d: nat): char
    requires d < 10
  {
    ('0' as int + d) as char
  }

  function DecNat(n: nat): (s: string)
    ensures s != ""
  {
    if n < 10 then [Digit(n)] else DecNat(n / 10) + [Digit(n % 10)]
  }

  function Dec(v: int): string { if v < 0 then "-" + DecNat(0 - v) else DecNat(v) }

  /** countDigits: four decimal places at a time. */
  method CountDigits(v: nat) returns (r: nat)
    ensures r == |DecNat(v)|
  {
    var w, result := v, 1;
    while true
      invariant |DecNat(w)| + result - 1 == |DecNat(v)|
      decreases w
    {
      if w < 10 { return result; }
      assert |DecNat(w)| == |DecNat(w / 10)| + 1;
      if w < 100 { return result + 1; }
      assert |DecNat(w / 10)| == |DecNat(w / 10 / 10)| + 1;
      if w < 1000 { return result + 2; }
      assert |DecNat(w / 10 / 10)| == |DecNat(w / 10 / 10 / 10)| + 1;
      if w < 10000 { return result + 3; }
      assert w / 10 / 10 / 10 >= 10;
      assert |DecNat(w / 10 / 10 / 10)| == |DecNat(w / 10 / 10 / 10 / 10)| + 1;
      assert w / 10 / 10 / 10 / 10 == w / 10000;
      w := w / 10000;
      result := result + 4;
    }
  }

  method BulkLen(len: nat) returns (r: nat)
    ensures r == 1 + |DecNat(len)| + 2 + len + 2
  {
    var d := CountDigits(len);
    return 1 + d + 2 + len + 2;
  }

  ghost function Rev(s: string): (r: string)
    ensures |r| == |s|
  {
    if s == "" then "" else Rev(s[1..]) + [s[0]]
  }

  lemma {:induction false} RevSnoc(s: string, c: char)
    ensures Rev(s + [c]) == [c] + Rev(s)
  {
    if s == "" {
      assert s + [c] == [c] && [c][1..] == "";
    } else {
      assert (s + [c])[1..] == s[1..] + [c];
      RevSnoc(s[1..], c);
    }
  }

  lemma {:induction false} RevAt(s: string, i: nat)
    requires i < |s|
    ensures Rev(s)[i] == s[|s| - 1 - i]
  {
    if i < |s| - 1 { RevAt(s[1..], i); }
  }

  lemma {:induction false} DecPlaces(v: nat, k: nat)
    requires k > 0 && v < Ten(k)
    ensures |DecNat(v)| <= k
  {
    if v >= 10 { DecPlaces(v / 10, k - 1); }
  }

  function Ten(k: nat): nat { if k == 0 then 1 else 10 * Ten(k - 1) }

  const LLSTR_SIZE := 21
  const LLONG_MAX := 9223372036854775807

  /** sdsll2str: writes the digits backwards, the sign after them, and reverses. */
  method Ll2Str(s: array<char>, value: int) returns (l: nat)
    requires s.Length >= LLSTR_SIZE && -LLONG_MAX <= value <= LLONG_MAX
    modifies s
    ensures l < s.Length && s[..l] == Dec(value)
  {
    var v := if value < 0 then 0 - value else value;
    DecPlaces19(v);
    l := WriteDigits(s, v);
    if value < 0 {
      RevSnoc(s[..l], '-');
      s[l] := '-';
      l := l + 1;
      assert s[..l] == s[..l - 1] + ['-'];
    }
    Reverse(s, l);
  }

  lemma DecPlaces19(v: nat)
    requires v <= LLONG_MAX
    ensures |DecNat(v)| <= 19
  {
    assert Ten(4) == 10000;
    assert Ten(8) == 100000000;
    assert Ten(12) == 1000000000000;
    assert Ten(16) == 10000000000000000;
    assert Ten(19) == 10000000000000000000;
    DecPlaces(v, 19);
  }

  method WriteDigits(s: array<char>, value: nat) returns (p: nat)
    requires |DecNat(value)| < s.Length
    modifies s
    ensures p == |DecNat(value)| && Rev(s[..p]) == DecNat(value)
  {
    var v := value;
    p := 0;
    while true
      invariant 0 <= p < |DecNat(value)| && DecNat(v) + Rev(s[..p]) == DecNat(value)
      decreases v
    {
      RevSnoc(s[..p], Digit(v % 10));
      s[p] := Digit(v % 10);
      p := p + 1;
      assert s[..p] == s[..p - 1] + [s[p - 1]];
      if v / 10 == 0 {
        return;
      }
      v := v / 10;
    }
  }

  method Reverse(s: array<char>, l: nat)
    requires l <= s.Length
    modifies s
    ensures s[..l] == Rev(old(s[..l]))
  {
    var i, j := 0, l - 1;
    while i < j
      invariant 0 <= i <= l && i + j == l - 1 && (i <= j + 1 || l == 0)
      invariant forall k :: 0 <= k < l ==> s[k] == if k < i || k > j then old(s[l - 1 - k]) else old(s[k])
      decreases j - i
    {
      s[i], s[j] := s[j], s[i];
      i, j := i + 1, j - 1;
    }
    ghost var was := old(s[..l]);
    forall k | 0 <= k < l ensures s[..l][k] == Rev(was)[k] { RevAt(was, k); }
  }

  predicate IsDigit(c: char) { 0 <= c as int - '0' as int < 10 }

  lemma {:induction false} DecDigits(n: nat)
    ensures forall i :: 0 <= i < |DecNat(n)| ==> IsDigit(DecNat(n)[i])
  {
    if n >= 10 { DecDigits(n / 10); }
  }

  lemma {:induction false} DigitsTail(s: string, t: string, v: nat) returns (w: nat)
    requires forall i :: 0 <= i < |s| ==> IsDigit(s[i])
    ensures Digits(s, v) == Some(w) && Digits(s + t, v) == Digits(t, w)
    decreases |s|
  {
    if s == "" {
      w := v;
      assert s + t == t;
    } else {
      assert (s + t)[1..] == s[1..] + t;
      w := DigitsTail(s[1..], t, v * 10 + (s[0] as int - '0' as int));
    }
  }

  /** Reading a number that was written gives it back. */
  lemma {:induction false} DigitsDec(n: nat)
    ensures Digits(DecNat(n), 0) == Some(n)
  {
    if n < 10 {
      assert DecNat(n)[1..] == "";
    } else {
      DigitsDec(n / 10);
      DecDigits(n / 10);
      var last := [Digit(n % 10)];
      var w := DigitsTail(DecNat(n / 10), last, 0);
      assert last[1..] == "";
      assert Digits(last, n / 10) == Digits(last[1..], n / 10 * 10 + n % 10);
    }
  }

  lemma NumberDec(v: int)
    ensures Number(Dec(v)) == v
  {
    if v < 0 {
      DigitsDec(0 - v);
      assert ("-" + DecNat(0 - v))[1..] == DecNat(0 - v);
    } else {
      DigitsDec(v);
      DecDigits(v);
      assert IsDigit(DecNat(v)[0]);
    }
  }

  lemma DecNoCr(v: int)
    ensures forall i :: 0 <= i < |Dec(v)| ==> Dec(v)[i] != '\r'
  {
    DecDigits(if v < 0 then 0 - v else v);
  }

  // ---- Replies --------------------------------------------------------------------------------------

  function Line(c: char, s: string): string { [c] + s + "\r\n" }

  function Encode(r: Reply): string
    decreases r
  {
    match r
    case Status(s) => Line('+', s)
    case Error(s) => Line('-', s)
    case Integer(v) => Line(':', Dec(v))
    case Str(s) => Line('$', Dec(|s|)) + (s + "\r\n")
    case Nil => Line('$', Dec(-1))
    case Array(count, elems) => Line('*', Dec(count)) + EncodeAll(elems)
  }

  function EncodeAll(es: seq<Reply>): string
    decreases es
  {
    if es == [] then "" else Encode(es[0]) + EncodeAll(es[1..])
  }

  predicate NoCrlf(s: string) { forall i :: 0 <= i < |s| - 1 ==> !(s[i] == '\r' && s[i + 1] == '\n') }

  /** Line strings hold no line end, and arrays the number of elements they say. */
  predicate Encodable(r: Reply)
    decreases r
  {
    match r
    case Status(s) => NoCrlf(s)
    case Error(s) => NoCrlf(s)
    case Array(count, elems) => count == |elems| && forall i :: 0 <= i < |elems| ==> Encodable(elems[i])
    case _ => true
  }

  /** The levels of arrays. */
  function Depth(r: Reply): nat
    decreases r
  {
    if r.Array? then 1 + DepthAll(r.elems) else 0
  }

  function DepthAll(es: seq<Reply>): nat
    decreases es
  {
    if es == [] then 0 else
    var a, b := Depth(es[0]), DepthAll(es[1..]);
    if a < b then b else a
  }

  lemma {:induction false} DepthAt(es: seq<Reply>, i: nat)
    requires i < |es|
    ensures Depth(es[i]) <= DepthAll(es)
  {
    if i > 0 { DepthAt(es[1..], i - 1); }
  }

  // ---- Reading back -----------------------------------------------------------------------------------

  lemma {:induction false} CompleteIdx(st: Stack, t: Task, obj: Reply)
    requires st != [] && t.idx == st[|st| - 1].idx
    ensures Complete(st[..|st| - 1] + [t], obj) == Complete(st, obj)
  {
    var n := |st| - 1;
    var st' := st[..n] + [t];
    assert st'[..n] == st[..n];
    if n > 0 { assert st'[..n - 1] == st[..n - 1]; }
  }

  lemma CrlfOf(s: string, more: string)
    requires NoCrlf(s)
    ensures Crlf(s + "\r\n" + more) == Some(|s|)
    ensures (s + "\r\n" + more)[..|s|] == s && (s + "\r\n" + more)[|s| + 2..] == more
  {
    CrlfAt(s + "\r\n" + more, |s|);
  }

  /** The type byte, then the rest of the item. */
  lemma RunType(st: Stack, c: char, s: string)
    requires st != [] && st[|st| - 1].kind.None? && KindOf(c).Some? && !(c == '*' && |st| == MAX_DEPTH)
    ensures Run(st, [c] + s) == Run(SetKind(st, KindOf(c).value), s)
  {
    var st' := SetKind(st, KindOf(c).value);
    assert ([c] + s)[1..] == s;
    assert Step(st, [c] + s) == Go(st', 1, None);
    assert [] + Run(st', s).out == Run(st', s).out;
  }

  /** An item whose step completes `obj` and uses all before `more`. */
  lemma RunItem(st: Stack, k: Kind, s: string, obj: Reply, used: nat, more: string)
    requires st != [] && st[|st| - 1].kind == Some(k) && ItemStep(st, k, s) == Finish(st, obj, used) && 0 < used <= |s|
        && s[used..] == more
    ensures Run(st, s) == Completed(st, obj, more)
  {
    assert Step(st, s) == ItemStep(st, k, s);
  }

  /** What comes of completing `obj` with `more` to read. */
  function Completed(st: Stack, obj: Reply, more: string): Result
    requires st != []
  {
    var c := Complete(st, obj);
    Prefixed(if c.1.Some? then [c.1.value] else [], Run(c.0, more))
  }

  lemma CompletedIdx(st: Stack, t: Task, obj: Reply, more: string)
    requires st != [] && t.idx == st[|st| - 1].idx
    ensures Completed(st[..|st| - 1] + [t], obj, more) == Completed(st, obj, more)
  {
    CompleteIdx(st, t, obj);
  }

  lemma LineOf(c: char, s: string, more: string)
    ensures Line(c, s) + more == [c] + (s + "\r\n" + more)
  {
  }

  /** A reply on one line. */
  lemma RunLine(st: Stack, c: char, s: string, obj: Reply, more: string)
    requires st != [] && st[|st| - 1].kind.None? && NoCrlf(s)
    requires (c == '+' && obj == Status(s)) || (c == '-' && obj == Error(s)) || (c == ':' && obj == Integer(Number(s)))
          || (c == '$' && Number(s) < 0 && obj == Nil)
    ensures Run(st, Line(c, s) + more) == Completed(st, obj, more)
  {
    hide Run, Complete, Number, Crlf;
    var k := KindOf(c).value;
    var st' := SetKind(st, k);
    LineOf(c, s, more);
    RunType(st, c, s + "\r\n" + more);
    CrlfOf(s, more);
    RunItem(st', k, s + "\r\n" + more, obj, |s| + 2, more);
    CompletedIdx(st, st'[|st| - 1], obj, more);
  }

  lemma StrSlices(d: string, s: string, more: string)
    ensures var all := d + "\r\n" + (s + "\r\n" + more);
            |d| + 2 + |s| + 2 <= |all| && all[|d| + 2..|d| + 2 + |s|] == s && all[|d| + 2 + |s| + 2..] == more
  {
    var body := s + "\r\n" + more;
    var all := d + "\r\n" + body;
    assert all[|d| + 2..] == body;
    assert body[..|s|] == s && body[|s| + 2..] == more;
  }

  lemma StrStep(st: Stack, s: string, more: string)
    requires st != []
    ensures ItemStep(st, KString, Dec(|s|) + "\r\n" + (s + "\r\n" + more)) == Finish(st, Str(s),
        |Dec(|s|)| + 2 + |s| + 2)
  {
    hide Complete, Number, Crlf, Dec, Finish;
    NumberDec(|s|);
    NoCrlfDec(|s|);
    CrlfOf(Dec(|s|), s + "\r\n" + more);
    StrSlices(Dec(|s|), s, more);
  }

  /** A string, whatever bytes it holds. */
  lemma RunStr(st: Stack, s: string, more: string)
    requires st != [] && st[|st| - 1].kind.None?
    ensures Run(st, Encode(Str(s)) + more) == Completed(st, Str(s), more)
  {
    hide Run, Complete, Number, Crlf, Dec, ItemStep, Finish, Completed;
    var st' := SetKind(st, KString);
    var d, body := Dec(|s|), s + "\r\n" + more;
    LineOf('$', d, body);
    assert Encode(Str(s)) + more == Line('$', d) + body;
    RunType(st, '$', d + "\r\n" + body);
    StrStep(st', s, more);
    StrSlices(d, s, more);
    RunItem(st', KString, d + "\r\n" + body, Str(s), |d| + 2 + |s| + 2, more);
    CompletedIdx(st, st'[|st| - 1], Str(s), more);
  }

  lemma NoCrlfDec(v: int)
    ensures NoCrlf(Dec(v))
  {
    DecNoCr(v);
  }

  lemma HeaderStep(st: Stack, n: nat, more: string)
    requires st != [] && n > 0
    ensures ItemStep(st, KArray, Dec(n) + "\r\n" + more) == Go(Push(st, n), |Dec(n)| + 2, None)
    ensures (Dec(n) + "\r\n" + more)[|Dec(n)| + 2..] == more
  {
    hide Complete, Number, Crlf, Dec, Push;
    NumberDec(n);
    NoCrlfDec(n);
    CrlfOf(Dec(n), more);
  }

  /** The header of an array with elements. */
  lemma RunHeader(st: Stack, n: nat, more: string)
    requires st != [] && st[|st| - 1].kind.None? && |st| < MAX_DEPTH && n > 0
    ensures Run(st, Line('*', Dec(n)) + more) == Run(Push(SetKind(st, KArray), n), more)
  {
    hide Complete, Number, Crlf, Dec, Push, ItemStep, TypeStep;
    var st' := SetKind(st, KArray);
    var all := Dec(n) + "\r\n" + more;
    LineOf('*', Dec(n), more);
    RunType(st, '*', all);
    HeaderStep(st', n, more);
    assert Step(st', all) == Go(Push(st', n), |Dec(n)| + 2, None);
    assert [] + Run(Push(st', n), more).out == Run(Push(st', n), more).out;
  }

  lemma RunEmpty(st: Stack, more: string)
    requires st != [] && st[|st| - 1].kind.None? && |st| < MAX_DEPTH
    ensures Run(st, Line('*', Dec(0)) + more) == Completed(st, Array(0, []), more)
  {
    hide Run, Complete, Number, Crlf, DecNat;
    var st' := SetKind(st, KArray);
    var d := Dec(0);
    NumberDec(0);
    NoCrlfDec(0);
    LineOf('*', d, more);
    RunType(st, '*', d + "\r\n" + more);
    CrlfOf(d, more);
    RunItem(st', KArray, d + "\r\n" + more, Array(0, []), |d| + 2, more);
    CompletedIdx(st, st'[|st| - 1], Array(0, []), more);
  }

  function Size(r: Reply): nat { if r.Array? then |r.elems| else 0 }

  /** Reading the encoding of a reply completes the reply, and takes exactly its bytes. */
  lemma {:induction false} RunEncode(st: Stack, r: Reply, more: string)
    requires st != [] && st[|st| - 1].kind.None? && st[|st| - 1].kids == [] && |st| + Depth(r) <= MAX_DEPTH
        && Encodable(r)
    ensures Run(st, Encode(r) + more) == Completed(st, r, more)
    decreases r, Size(r) + 1
  {
    hide Run, Completed, Line;
    match r
    case Status(s) => RunLine(st, '+', s, r, more);
    case Error(s) => RunLine(st, '-', s, r, more);
    case Integer(v) =>
      NumberDec(v);
      NoCrlfDec(v);
      RunLine(st, ':', Dec(v), r, more);
    case Str(s) => RunStr(st, s, more);
    case Nil =>
      NumberDec(-1);
      NoCrlfDec(-1);
      RunLine(st, '$', Dec(-1), r, more);
    case Array(count, elems) =>
      if count == 0 {
        assert Line('*', Dec(0)) + "" == Line('*', Dec(0));
        RunEmpty(st, more);
      } else {
        assert Encode(r) + more == Line('*', Dec(count)) + (EncodeAll(elems) + more);
        RunHeader(st, count, EncodeAll(elems) + more);
        var parent := st[|st| - 1].(kind := Some(KArray), elements := count);
        assert Push(SetKind(st, KArray), count) == st[..|st| - 1] + [parent, Fresh(0)];
        assert elems[0..] == elems && elems[..0] == [];
        RunElems(st, r, 0, more);
      }
  }

  /** The elements from number `i` on complete the array. */
  lemma {:induction false} RunElems(st: Stack, r: Reply, i: nat, more: string)
    requires st != [] && r.Array? && |st| + Depth(r) <= MAX_DEPTH && Encodable(r) && i < |r.elems|
    ensures var parent := Task(Some(KArray), r.count, st[|st| - 1].idx, r.elems[..i]);
            Run(st[..|st| - 1] + [parent, Fresh(i)], EncodeAll(r.elems[i..]) + more) == Completed(st, r, more)
    decreases r, |r.elems| - i
  {
    hide Run, Line;
    var n := |st| - 1;
    var parent := Task(Some(KArray), r.count, st[n].idx, r.elems[..i]);
    var st' := st[..n] + [parent, Fresh(i)];
    var e, rest := r.elems[i], EncodeAll(r.elems[i + 1..]) + more;
    DepthAt(r.elems, i);
    assert r.elems[i..][1..] == r.elems[i + 1..];
    assert EncodeAll(r.elems[i..]) + more == Encode(e) + rest;
    RunEncode(st', e, rest);
    assert r.elems[..i] + [e] == r.elems[..i + 1];
    var next := parent.(kids := r.elems[..i + 1]);
    assert st'[..n] == st[..n] && st'[..n + 1] == st[..n] + [parent];
    if i == |r.elems| - 1 {
      assert r.elems[..i + 1] == r.elems;
      assert rest == more;
      CompletedIdx(st, parent, r, more);
      assert Completed(st', e, rest) == Completed(st'[..n + 1], r, more);
    } else {
      assert Complete(st', e) == (st[..n] + [next, Fresh(i + 1)], None);
      var res := Run(st[..n] + [next, Fresh(i + 1)], rest);
      assert [] + res.out == res.out;
      RunElems(st, r, i + 1, more);
    }
  }

  lemma {:induction false} DeepElement(es: seq<Reply>, d: nat) returns (i: nat)
    requires d > 0 && DepthAll(es) >= d
    ensures i < |es| && Depth(es[i]) >= d && forall j :: 0 <= j < i ==> Depth(es[j]) < d
  {
    if Depth(es[0]) >= d {
      i := 0;
    } else {
      var k := DeepElement(es[1..], d);
      i := k + 1;
    }
  }

  /** An array one level too deep is refused at its type byte. */
  lemma RunRefused(st: Stack, s: string)
    requires |st| == MAX_DEPTH && st[|st| - 1].kind.None? && s != "" && s[0] == '*'
    ensures Run(st, s).fault == Some(TooDeep)
  {
  }

  lemma {:induction false} RunTooDeep(st: Stack, r: Reply, more: string)
    requires st != [] && st[|st| - 1].kind.None? && st[|st| - 1].kids == [] && |st| <= MAX_DEPTH < |st| + Depth(r)
        && Encodable(r)
    ensures Run(st, Encode(r) + more).fault == Some(TooDeep)
    decreases r, Size(r) + 1
  {
    hide Run;
    if |st| == MAX_DEPTH {
      RunRefused(st, Encode(r) + more);
    } else {
      var elems := r.elems;
      var i := DeepElement(elems, MAX_DEPTH - |st|);
      assert Encode(r) + more == Line('*', Dec(r.count)) + (EncodeAll(elems) + more);
      RunHeader(st, r.count, EncodeAll(elems) + more);
      assert Push(SetKind(st, KArray), r.count) == st[..|st| - 1] + [Task(Some(KArray), r.count, st[|st| - 1].idx, []),
          Fresh(0)];
      assert elems[0..] == elems && elems[..0] == [];
      ElemsTooDeep(st, r, 0, i, more);
    }
  }

  lemma {:induction false} ElemsTooDeep(st: Stack, r: Reply, i: nat, deep: nat, more: string)
    requires st != [] && r.Array? && |st| < MAX_DEPTH && Encodable(r) && i <= deep < |r.elems|
    requires |st| + 1 + Depth(r.elems[deep]) > MAX_DEPTH
        && forall j :: i <= j < deep ==> |st| + 1 + Depth(r.elems[j]) <= MAX_DEPTH
    ensures var parent := Task(Some(KArray), r.count, st[|st| - 1].idx, r.elems[..i]);
            Run(st[..|st| - 1] + [parent, Fresh(i)], EncodeAll(r.elems[i..]) + more).fault == Some(TooDeep)
    decreases r, |r.elems| - i
  {
    hide Run;
    var n := |st| - 1;
    var parent := Task(Some(KArray), r.count, st[n].idx, r.elems[..i]);
    var st' := st[..n] + [parent, Fresh(i)];
    var e, rest := r.elems[i], EncodeAll(r.elems[i + 1..]) + more;
    assert r.elems[i..][1..] == r.elems[i + 1..];
    assert EncodeAll(r.elems[i..]) + more == Encode(e) + rest;
    if i == deep {
      RunTooDeep(st', e, rest);
    } else {
      RunEncode(st', e, rest);
      assert r.elems[..i] + [e] == r.elems[..i + 1];
      var next := parent.(kids := r.elems[..i + 1]);
      assert st'[..n] == st[..n];
      assert Complete(st', e) == (st[..n] + [next, Fresh(i + 1)], None);
      ElemsTooDeep(st, r, i + 1, deep, more);
    }
  }

  /** Parsing the encoding of a reply gives the reply and nothing else, if it has at most eight levels of arrays;
      otherwise it is refused. */
  lemma EncodeThenParse(r: Reply)
    requires Encodable(r)
    ensures Depth(r) <= 8 ==> Parse(Encode(r)) == Result([r], None, [Fresh(-1)], "")
    ensures Depth(r) > 8 ==> Parse(Encode(r)).fault == Some(TooDeep)
  {
    hide Encode, Encodable, Depth;
    assert Encode(r) + "" == Encode(r);
    if Depth(r) <= 8 {
      RunEncode([Fresh(-1)], r, "");
      EmptyRun();
      assert [r] + [] == [r];
    } else {
      RunTooDeep([Fresh(-1)], r, "");
    }
  }

  // ---- Commands -------------------------------------------------------------------------------------------

  const UINT_SPAN := 0x1_0000_0000

  function Strs(argv: seq<string>): (es: seq<Reply>)
    ensures |es| == |argv| && forall i :: 0 <= i < |es| ==> es[i] == Str(argv[i])
  {
    if argv == [] then [] else [Str(argv[0])] + Strs(argv[1..])
  }

  /** A command is the array of its arguments. */
  function Command(argv: seq<string>): Reply { Array(|argv|, Strs(argv)) }

  /** A length as it is printed: whole, or as a 32-bit number. */
  function Shown(len: nat, narrow: bool): nat { if narrow then len % UINT_SPAN else len }

  predicate Short(argv: seq<string>) { forall i :: 0 <= i < |argv| ==> |argv[i]| < UINT_SPAN }

  function Bulk(s: string, narrow: bool): string { Line('$', Dec(Shown(|s|, narrow))) + (s + "\r\n") }

  function Bulks(argv: seq<string>, narrow: bool): string {
    if argv == [] then "" else Bulks(argv[..|argv| - 1], narrow) + Bulk(argv[|argv| - 1], narrow)
  }

  lemma BulkIs(s: string, narrow: bool)
    requires narrow ==> |s| < UINT_SPAN
    ensures Bulk(s, narrow) == Encode(Str(s)) && |Bulk(s, narrow)| == 1 + |DecNat(|s|)| + 2 + |s| + 2
  {
    assert Shown(|s|, narrow) == |s|;
  }

  lemma {:induction false} EncodeAllSnoc(es: seq<Reply>, e: Reply)
    ensures EncodeAll(es + [e]) == EncodeAll(es) + Encode(e)
  {
    if es == [] {
      assert es + [e] == [e] && [e][1..] == [];
    } else {
      assert (es + [e])[1..] == es[1..] + [e];
      EncodeAllSnoc(es[1..], e);
    }
  }

  lemma {:induction false} StrsLast(argv: seq<string>)
    requires argv != []
    ensures Strs(argv) == Strs(argv[..|argv| - 1]) + [Str(argv[|argv| - 1])]
  {
    hide Strs;
    var n := |argv| - 1;
    var a, b := Strs(argv), Strs(argv[..n]) + [Str(argv[n])];
    forall i | 0 <= i < |a| ensures a[i] == b[i] {
      if i < n { assert argv[..n][i] == argv[i]; }
    }
  }

  lemma {:induction false} StrsSnoc(argv: seq<string>)
    requires argv != []
    ensures Strs(argv) == Strs(argv[..|argv| - 1]) + [Str(argv[|argv| - 1])]
    ensures EncodeAll(Strs(argv)) == EncodeAll(Strs(argv[..|argv| - 1])) + Encode(Str(argv[|argv| - 1]))
  {
    hide Encode, EncodeAll, Strs;
    var n := |argv| - 1;
    StrsLast(argv);
    EncodeAllSnoc(Strs(argv[..n]), Str(argv[n]));
  }

  lemma {:induction false} BulksAre(argv: seq<string>, narrow: bool)
    requires narrow ==> Short(argv)
    ensures Bulks(argv, narrow) == EncodeAll(Strs(argv)) && |Bulks(argv, narrow)| == Total(argv)
  {
    hide Bulk, Encode, DecNat, Strs, EncodeAll;
    if argv == [] {
      NoStrs();
    } else {
      BulksAre(argv[..|argv| - 1], narrow);
      StrsSnoc(argv);
      BulkIs(argv[|argv| - 1], narrow);
    }
  }

  lemma NoStrs()
    ensures EncodeAll(Strs([])) == ""
  {
  }

  lemma {:induction false} DecLength(a: nat, b: nat)
    requires a <= b
    ensures |DecNat(a)| <= |DecNat(b)|
  {
    if a >= 10 { DecLength(a / 10, b / 10); }
  }

  /** Printed as a 32-bit number, a length never takes more places, and is right exactly if it is short. */
  lemma BulkNarrow(s: string)
    ensures |Bulk(s, true)| <= |Encode(Str(s))|
    ensures Bulk(s, true) == Encode(Str(s)) ==> |s| < UINT_SPAN
  {
    hide DecNat;
    var n, m := |s|, Shown(|s|, true);
    DecLength(m, n);
    if Bulk(s, true) == Encode(Str(s)) {
      assert |Bulk(s, true)| == 1 + |DecNat(m)| + 2 + n + 2;
      assert DecNat(m) == Bulk(s, true)[1..1 + |DecNat(m)|] == Encode(Str(s))[1..1 + |DecNat(n)|] == DecNat(n);
      DigitsDec(m);
      DigitsDec(n);
    }
  }

  lemma {:induction false} BulksNarrow(argv: seq<string>)
    ensures |Bulks(argv, true)| <= |EncodeAll(Strs(argv))|
    ensures Bulks(argv, true) == EncodeAll(Strs(argv)) ==> Short(argv)
  {
    hide Bulk, Encode, Strs, EncodeAll;
    if argv == [] {
      NoStrs();
    } else {
      var n := |argv| - 1;
      BulksNarrow(argv[..n]);
      BulkNarrow(argv[n]);
      StrsSnoc(argv);
      var a, b, c, d := Bulks(argv[..n], true), Bulk(argv[n], true), EncodeAll(Strs(argv[..n])), Encode(Str(argv[n]));
      if a + b == c + d {
        assert |a| == |c|;
        assert a == (a + b)[..|a|] == c && b == (a + b)[|a|..] == d;
      }
    }
  }

  /** The 32-bit formatter writes the command exactly when every argument is shorter than 4 GiB. */
  lemma SdsExact(argv: seq<string>)
    ensures Line('*', Dec(|argv|)) + Bulks(argv, true) == Encode(Command(argv)) <==> Short(argv)
  {
    hide Bulks, EncodeAll, Short, Dec, Encode, Line;
    EncodeCommand(argv);
    BulksNarrow(argv);
    if Short(argv) { BulksAre(argv, true); }
    var h, x, y := Line('*', Dec(|argv|)), Bulks(argv, true), EncodeAll(Strs(argv));
    if h + x == h + y { assert x == (h + x)[|h|..] == y; }
  }

  lemma CommandDepth(argv: seq<string>)
    ensures Encodable(Command(argv)) && Depth(Command(argv)) == 1
  {
    StrsDepth(argv);
  }

  lemma {:induction false} StrsDepth(argv: seq<string>)
    ensures DepthAll(Strs(argv)) == 0
  {
    if argv != [] { StrsDepth(argv[1..]); }
  }

  /** A formatted command is read back as its arguments. */
  lemma CommandThenParse(argv: seq<string>)
    ensures Parse(Encode(Command(argv))) == Result([Command(argv)], None, [Fresh(-1)], "")
  {
    hide Encode, Encodable, Depth, Command;
    CommandDepth(argv);
    EncodeThenParse(Command(argv));
  }

  function Total(argv: seq<string>): nat {
    if argv == [] then 0
    else Total(argv[..|argv| - 1]) + (1 + |DecNat(|argv[|argv| - 1]|)| + 2 + |argv[|argv| - 1]| + 2)
  }

  /** The length computed before formatting. */
  method TotalLength(argv: seq<string>) returns (totlen: nat)
    ensures totlen == 1 + |DecNat(|argv|)| + 2 + Total(argv)
  {
    var d := CountDigits(|argv|);
    totlen := 1 + d + 2;
    for j := 0 to |argv|
      invariant totlen == 1 + |DecNat(|argv|)| + 2 + Total(argv[..j])
    {
      var l := BulkLen(|argv[j]|);
      assert argv[..j + 1][..j] == argv[..j];
      totlen := totlen + l;
    }
    assert argv[..|argv|] == argv;
  }

  lemma EncodeCommand(argv: seq<string>)
    ensures Encode(Command(argv)) == Line('*', Dec(|argv|)) + EncodeAll(Strs(argv))
    ensures |Line('*', Dec(|argv|))| == 1 + |DecNat(|argv|)| + 2
  {
  }

  /** The pieces one argument adds. */
  method CatBulk(cmd: string, s: string, narrow: bool) returns (r: string)
    ensures r == cmd + Bulk(s, narrow)
  {
    hide Dec;
    r := cmd + "$" + Dec(Shown(|s|, narrow)) + "\r\n";
    r := r + s;
    r := r + "\r\n";
  }

  /** redisFormatCommandArgv: the total computed before is the length of what is written. */
  method FormatCommandArgv(argv: seq<string>) returns (cmd: string, totlen: nat)
    ensures cmd == Encode(Command(argv)) && totlen == |cmd|
  {
    hide Dec, DecNat, Bulk, Encode, Total;
    totlen := TotalLength(argv);
    cmd := "*" + Dec(|argv|) + "\r\n";
    for j := 0 to |argv|
      invariant cmd == Line('*', Dec(|argv|)) + Bulks(argv[..j], false)
    {
      assert argv[..j + 1][..j] == argv[..j];
      cmd := CatBulk(cmd, argv[j], false);
    }
    assert argv[..|argv|] == argv;
    BulksAre(argv, false);
    EncodeCommand(argv);
    assert |cmd| == totlen;
  }

  /** redisFormatSdsCommandArgv prints the lengths as 32-bit numbers; it stops, None, when the length of what is
      written is not the total computed before. */
  method FormatSdsCommandArgv(argv: seq<string>) returns (r: Option<string>)
    ensures r.Some? ==> r.value == Line('*', Dec(|argv|)) + Bulks(argv, true)
    ensures r.Some? <==> |Bulks(argv, true)| == Total(argv)
    ensures Short(argv) ==> r == Some(Encode(Command(argv)))
  {
    hide Dec, DecNat, Bulk, Encode, Total, Short;
    var totlen := TotalLength(argv);
    var cmd := "*" + Dec(|argv|) + "\r\n";
    for j := 0 to |argv|
      invariant cmd == Line('*', Dec(|argv|)) + Bulks(argv[..j], true)
    {
      assert argv[..j + 1][..j] == argv[..j];
      cmd := CatBulk(cmd, argv[j], true);
    }
    assert argv[..|argv|] == argv;
    if Short(argv) { BulksAre(argv, true); }
    EncodeCommand(argv);
    if |cmd| != totlen {
      return None;
    }
    return Some(cmd);
  }
}

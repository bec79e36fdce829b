/** The incremental reply parser of deps/hiredis/read.c: a buffer that is fed in pieces and a stack of tasks that
    survives from one call to the next. */
module RespReader {
  import opened Lines
  import opened Options
  import opened Sequences

  datatype Kind = KError | KStatus | KInteger | KString | KArray

  /** A reply object; `count` is what the array header said, negative counts included. */
  datatype Reply =
    | Status(s: string) | Error(s: string) | Integer(v: int) | Str(s: string) | Nil
    | Array(count: int, elems: seq<Reply>)

  datatype Fault = BadType(c: char) | TooDeep

  /** A read task; `kids` are the elements its array has so far. */
  datatype Task = Task(kind: Option<Kind>, elements: int, idx: int, kids: seq<Reply>)

  const MAX_DEPTH := 9

  type Stack = seq<Task>

  function Fresh(idx: int): Task { Task(None, -1, idx, []) }

  // ---- Lines and numbers --------------------------------------------------------------------------

  /** seekNewline. */
  method SeekNewline(s: string) returns (r: Option<nat>)
    ensures r == Crlf(s)
  {
    var pos, len := 0, |s| - 1;
    while pos < len
      invariant 0 <= pos && (pos <= len || pos == 0)
      invariant forall i :: 0 <= i < pos ==> !(s[i] == '\r' && s[i + 1] == '\n')
      decreases len - pos
    {
      while pos < len && s[pos] != '\r'
        invariant 0 <= pos <= len
        invariant forall i :: 0 <= i < pos ==> !(s[i] == '\r' && s[i + 1] == '\n')
        decreases len - pos
      {
        pos := pos + 1;
      }
      if pos == len {
        CrlfNone(s);
        return None;
      } else {
        if s[pos + 1] == '\n' {
          CrlfAt(s, pos);
          return Some(pos);
        } else {
          pos := pos + 1;
        }
      }
    }
    CrlfNone(s);
    return None;
  }

  /** The digits up to a carriage return, read after those that make `v`; None if something else is met. */
  function Digits(s: string, v: nat): Option<nat> {
    if s == "" || s[0] == '\r' then Some(v)
    else if 0 <= s[0] as int - '0' as int < 10 then Digits(s[1..], v * 10 + (s[0] as int - '0' as int))
    else None
  }

  function Signed(s: string): bool { s != "" && (s[0] == '-' || s[0] == '+') }

  /** The number a line starts with, -1 for anything unexpected. */
  function Number(s: string): int {
    var d := Digits(if Signed(s) then s[1..] else s, 0);
    if d.None? then -1 else if s != "" && s[0] == '-' then 0 - d.value else d.value
  }

  /** readLongLong, which relies on a carriage return to stop. */
  method ReadLongLong(s: string) returns (r: int)
    requires '\r' in s
    ensures r == Number(s)
  {
    var v, mult, i := 0, 1, 0;
    if s[0] == '-' {
      mult, i := -1, 1;
    } else if s[0] == '+' {
      mult, i := 1, 1;
    }
    assert s[0..] == s;
    ghost var all := Digits(s[i..], 0);
    assert '\r' in s[i..];
    while s[i] != '\r'
      invariant 0 <= i < |s| && v >= 0 && '\r' in s[i..] && Digits(s[i..], v) == all
      decreases |s| - i
    {
      var dec := s[i] as int - '0' as int;
      assert s[i..][1..] == s[i + 1..];
      if dec >= 0 && dec < 10 {
        v := v * 10;
        v := v + dec;
      } else {
        return -1;
      }
      i := i + 1;
    }
    return mult * v;
  }

  // ---- One step -----------------------------------------------------------------------------------------

  function KindOf(c: char): Option<Kind> {
    match c
    case '-' => Some(KError)
    case '+' => Some(KStatus)
    case ':' => Some(KInteger)
    case '$' => Some(KString)
    case '*' => Some(KArray)
    case _ => None
  }

  /** What the object of the last task completes: the arrays that end with it, and perhaps the whole reply. */
  function Complete(st: Stack, obj: Reply): (r: (Stack, Option<Reply>))
    requires st != []
    ensures r.0 != [] && |r.0| <= |st|
    decreases |st|
  {
    if |st| == 1 then ([Fresh(-1)], Some(obj)) else
    var n := |st| - 1;
    var prv := st[n - 1].(kids := st[n - 1].kids + [obj]);
    if st[n].idx == prv.elements - 1 then Complete(st[..n], Array(prv.elements, prv.kids))
    else (st[..n - 1] + [prv, Fresh(st[n].idx + 1)], None)
  }

  /** More input is needed, the input is at fault, or `used` bytes were taken. */
  datatype Outcome = More | Bad(fault: Fault) | Go(stack: Stack, used: nat, out: Option<Reply>)

  function Finish(st: Stack, obj: Reply, used: nat): Outcome
    requires st != []
  {
    Go(Complete(st, obj).0, used, Complete(st, obj).1)
  }

  function SetKind(st: Stack, k: Kind): Stack
    requires st != []
  {
    st[..|st| - 1] + [st[|st| - 1].(kind := Some(k))]
  }

  function Push(st: Stack, elements: int): Stack
    requires st != []
  {
    st[..|st| - 1] + [st[|st| - 1].(elements := elements), Fresh(0)]
  }

  /** The type byte. */
  function TypeStep(st: Stack, s: string): Outcome
    requires st != []
  {
    if s == "" then More
    else if KindOf(s[0]).None? then Bad(BadType(s[0]))
    else if KindOf(s[0]) == Some(KArray) && |st| == MAX_DEPTH then Bad(TooDeep)
    else Go(SetKind(st, KindOf(s[0]).value), 1, None)
  }

  /** The rest of an item, once its kind is known. */
  function ItemStep(st: Stack, k: Kind, s: string): Outcome
    requires st != []
  {
    var nl := Crlf(s);
    if nl.None? then More else
    var line := s[..nl.value];
    match k
    case KError => Finish(st, Error(line), nl.value + 2)
    case KStatus => Finish(st, Status(line), nl.value + 2)
    case KInteger => Finish(st, Integer(Number(line)), nl.value + 2)
    case KString =>
      var len := Number(line);
      if len < 0 then Finish(st, Nil, nl.value + 2)
      else if nl.value + 2 + len + 2 <= |s|
      then Finish(st, Str(s[nl.value + 2..nl.value + 2 + len]), nl.value + 2 + len + 2)
      else More
    case KArray =>
      var elements := Number(line);
      if elements == -1 then Finish(st, Nil, nl.value + 2)
      else if elements > 0 then Go(Push(st, elements), nl.value + 2, None)
      else Finish(st, Array(elements, []), nl.value + 2)
  }

  function Step(st: Stack, s: string): (r: Outcome)
    requires st != []
    ensures r.Go? ==> 0 < r.used <= |s| && r.stack != []
  {
    var k := st[|st| - 1].kind;
    if k.None? then TypeStep(st, s) else ItemStep(st, k.value, s)
  }

  /** What has been taken does not depend on what follows. */
  lemma StepStable(st: Stack, s: string, more: string)
    requires st != [] && !Step(st, s).More?
    ensures Step(st, s + more) == Step(st, s)
  {
    hide Complete, Number;
    var k := st[|st| - 1].kind;
    if k.Some? {
      CrlfStable(s, more);
      var i := Crlf(s).value;
      assert (s + more)[..i] == s[..i];
      var len := Number(s[..i]);
      if len >= 0 && i + 2 + len <= |s| { assert (s + more)[i + 2..i + 2 + len] == s[i + 2..i + 2 + len]; }
    }
  }

  // ---- Whole inputs -------------------------------------------------------------------------------------

  /** The replies, the fault if any, and the state left. */
  datatype Result = Result(out: seq<Reply>, fault: Option<Fault>, stack: Stack, rest: string)

  function Run(st: Stack, s: string): (r: Result)
    requires st != []
    ensures r.stack != []
    decreases |s|
  {
    match Step(st, s)
    case More => Result([], None, st, s)
    case Bad(f) => Result([], Some(f), [Fresh(-1)], "")
    case Go(st', used, out) =>
      var r := Run(st', s[used..]);
      r.(out := (if out.Some? then [out.value] else []) + r.out)
  }

  /** The parse of a whole input: its replies and the fault that ends it. */
  function Parse(s: string): Result { Run([Fresh(-1)], s) }

  /** Going on with more input is going on from the state left, unless the input was at fault. */
  lemma {:induction false} RunAppend(st: Stack, a: string, b: string)
    requires st != []
    ensures var r := Run(st, a);
            if r.fault.Some? then Run(st, a + b) == r
            else Run(st, a + b) == var r' := Run(r.stack, r.rest + b); r'.(out := r.out + r'.out)
    decreases |a|
  {
    hide Step;
    var o := Step(st, a);
    if o.More? {
      assert [] + Run(st, a + b).out == Run(st, a + b).out;
    } else {
      StepStable(st, a, b);
      if o.Go? {
        assert (a + b)[o.used..] == a[o.used..] + b;
        RunAppend(o.stack, a[o.used..], b);
        var first := if o.out.Some? then [o.out.value] else [];
        var r := Run(o.stack, a[o.used..]);
        var r' := Run(r.stack, r.rest + b);
        assert first + (r.out + r'.out) == (first + r.out) + r'.out;
      }
    }
  }

  /** Up to the first reply. */
  datatype One = One(out: Option<Reply>, fault: Option<Fault>, stack: Stack, rest: string)

  function RunOne(st: Stack, s: string): (r: One)
    requires st != []
    ensures r.stack != []
    decreases |s|
  {
    match Step(st, s)
    case More => One(None, None, st, s)
    case Bad(f) => One(None, Some(f), [Fresh(-1)], "")
    case Go(st', used, out) => if out.Some? then One(out, None, st', s[used..]) else RunOne(st', s[used..])
  }

  /** A run is its first reply and the run from there. */
  lemma {:induction false} RunFromOne(st: Stack, s: string)
    requires st != []
    ensures var r := RunOne(st, s);
            && (r.fault.Some? ==> Run(st, s) == Result([], r.fault, r.stack, r.rest))
            && (r.out.None? && r.fault.None? ==> Run(st, s) == Result([], None, r.stack, r.rest))
            && (r.out.Some? ==>
                r.fault.None? && |r.rest| < |s|
                && Run(st, s) == var r' := Run(r.stack, r.rest); r'.(out := [r.out.value] + r'.out))
    decreases |s|
  {
    hide Step;
    var o := Step(st, s);
    if o.Go? && o.out.None? {
      RunFromOne(o.stack, s[o.used..]);
      var r := Run(o.stack, s[o.used..]);
      assert [] + r.out == r.out;
    }
  }

  // ---- The reader ---------------------------------------------------------------------------------------

  /** Every task below the last reads an array that is not complete, and is followed by its next element. */
  predicate Chain(st: Stack) {
    st != [] &&
    if |st| == 1 then st[0].idx == -1 else
    var prv, cur := st[|st| - 2], st[|st| - 1];
    prv.kind == Some(KArray) && cur.idx == |prv.kids| < prv.elements && Chain(st[..|st| - 1])
  }

  predicate StackOk(st: Stack) {
    Chain(st) && |st| <= MAX_DEPTH && st[|st| - 1].kids == []
        && !(|st| == MAX_DEPTH && st[|st| - 1].kind == Some(KArray))
  }

  lemma {:induction false} CompleteOk(st: Stack, obj: Reply)
    requires Chain(st) && |st| <= MAX_DEPTH
    ensures StackOk(Complete(st, obj).0) && Complete(st, obj).0[|Complete(st, obj).0| - 1].kind == None
    decreases |st|
  {
    if |st| > 1 {
      var n := |st| - 1;
      var prv := st[n - 1].(kids := st[n - 1].kids + [obj]);
      if st[n].idx == prv.elements - 1 {
        CompleteOk(st[..n], Array(prv.elements, prv.kids));
      } else {
        var st' := st[..n - 1] + [prv, Fresh(st[n].idx + 1)];
        ChainKids(st[..n], prv);
        assert st'[..n] == st[..n][..n - 1] + [prv];
      }
    }
  }

  lemma CompleteStep(st: Stack, obj: Reply)
    requires Chain(st)
    ensures |st| == 1 ==> Complete(st, obj) == ([Fresh(-1)], Some(obj))
    ensures |st| > 1 ==>
              var n := |st| - 1; var prv := st[n - 1].(kids := st[n - 1].kids + [obj]);
              && prv.kind == Some(KArray) && st[n].idx < prv.elements && Chain(st[..n])
              && Complete(st, obj) ==
                 if st[n].idx == prv.elements - 1 then Complete(st[..n], Array(prv.elements, prv.kids))
                 else (st[..n - 1] + [prv, Fresh(st[n].idx + 1)], None)
  {
  }

  lemma ChainKids(st: Stack, t: Task)
    requires Chain(st) && t.idx == st[|st| - 1].idx
    ensures Chain(st[..|st| - 1] + [t])
  {
    var st' := st[..|st| - 1] + [t];
    assert st'[..|st| - 1] == st[..|st| - 1];
  }

  lemma NumberPrefix(s: string, i: nat)
    requires i < |s| && s[i] == '\r'
    ensures Number(s) == Number(s[..i])
  {
    if Signed(s) && i > 0 {
      assert s[..i][1..] == s[1..][..i - 1];
      DigitsPrefix(s[1..], i - 1, 0);
    } else {
      DigitsPrefix(s, i, 0);
    }
  }

  lemma {:induction false} DigitsPrefix(s: string, i: nat, v: nat)
    requires i < |s| && s[i] == '\r'
    ensures Digits(s, v) == Digits(s[..i], v)
    decreases |s|
  {
    if i > 0 && s[0] != '\r' && 0 <= s[0] as int - '0' as int < 10 {
      assert s[..i][1..] == s[1..][..i - 1];
      DigitsPrefix(s[1..], i - 1, v * 10 + (s[0] as int - '0' as int));
    }
  }

  lemma FreshOk()
    ensures StackOk([Fresh(-1)])
  {
  }

  lemma NothingYet(st: Stack)
    requires st != []
    ensures RunOne(st, "") == One(None, None, st, "")
  {
    assert Crlf("").None?;
  }

  lemma PushOk(st: Stack, elements: int)
    requires Chain(st) && |st| < MAX_DEPTH && elements > 0 && st[|st| - 1].kind == Some(KArray)
        && st[|st| - 1].kids == []
    ensures StackOk(Push(st, elements))
  {
    var t := st[|st| - 1].(elements := elements);
    ChainKids(st, t);
    assert Push(st, elements)[..|st|] == st[..|st| - 1] + [t];
  }

  lemma ItemContinues(st: Stack, k: Kind, s: string)
    requires st != [] && st[|st| - 1].kind == Some(k)
    ensures var o := ItemStep(st, k, s);
            && !o.Bad? && (o.More? ==> RunOne(st, s) == One(None, None, st, s))
            && (o.Go? ==> o.stack != [] && 0 < o.used && o.used <= |s| &&
                          RunOne(st, s) == if o.out.Some? then One(o.out, None, o.stack, s[o.used..])
                              else RunOne(o.stack, s[o.used..]))
  {
    hide Complete, Number;
    assert Step(st, s) == ItemStep(st, k, s);
  }

  lemma TypeNone(st: Stack)
    requires st != [] && st[|st| - 1].kind.None?
    ensures RunOne(st, "") == One(None, None, st, "")
  {
  }

  lemma TypeSome(st: Stack, s: string)
    requires st != [] && st[|st| - 1].kind.None? && s != ""
    ensures KindOf(s[0]).None? ==> RunOne(st, s) == One(None, Some(BadType(s[0])), [Fresh(-1)], "")
    ensures KindOf(s[0]) == Some(KArray) && |st| == MAX_DEPTH
        ==> RunOne(st, s) == One(None, Some(TooDeep), [Fresh(-1)], "")
    ensures KindOf(s[0]).Some? && !(KindOf(s[0]) == Some(KArray) && |st| == MAX_DEPTH) ==>
              RunOne(st, s) == RunOne(SetKind(st, KindOf(s[0]).value), s[1..])
  {
  }

  class Reader {
    var fault: Option<Fault>
    var buf: string
    var pos: nat
    var rstack: seq<Task>
    var ridx: int
    var reply: Option<Reply>

    constructor ()
      ensures Valid() && fault == None && Tasks() == [Fresh(-1)] && Rest() == ""
    {
      fault, buf, pos, rstack, ridx, reply := None, "", 0,
          [Fresh(-1), Fresh(-1), Fresh(-1), Fresh(-1), Fresh(-1), Fresh(-1), Fresh(-1), Fresh(-1), Fresh(-1)], -1, None;
    }

    /** The task stack never leaves its nine places. */
    ghost predicate Valid()
      reads this
    {
      && pos <= |buf| && |rstack| == MAX_DEPTH && -1 <= ridx < MAX_DEPTH && (ridx >= 0 ==> StackOk(rstack[..ridx + 1]))
      && (fault.Some? ==> buf == "" && ridx == -1)
    }

    ghost function Tasks(): Stack
      requires Valid()
      reads this
    {
      if ridx == -1 then [Fresh(-1)] else rstack[..ridx + 1]
    }

    ghost function Rest(): string
      requires pos <= |buf|
      reads this
    {
      buf[pos..]
    }

    method SetError(f: Fault)
      requires |rstack| == MAX_DEPTH
      modifies this
      ensures Valid() && fault == Some(f) && Rest() == ""
    {
      reply, buf, pos, ridx := None, "", 0, -1;
      fault := Some(f);
    }

    /** moveToNextTask, with the object that was created: arrays it completes are handed up. */
    method MoveToNextTask(obj: Reply)
      requires pos <= |buf| && |rstack| == MAX_DEPTH && 0 <= ridx < MAX_DEPTH && Chain(rstack[..ridx + 1])
          && fault.None?
      modifies this`rstack, this`ridx, this`reply
      ensures Valid() && Tasks() == Complete(old(rstack[..ridx + 1]), obj).0
      ensures ridx == -1 <==> Complete(old(rstack[..ridx + 1]), obj).1.Some?
      ensures ridx == -1 ==> reply == Complete(old(rstack[..ridx + 1]), obj).1
    {
      hide Complete, Chain;
      var o := obj;
      CompleteOk(rstack[..ridx + 1], obj);
      while ridx >= 0
        invariant |rstack| == MAX_DEPTH && 0 <= ridx < MAX_DEPTH && Chain(rstack[..ridx + 1])
        invariant Complete(rstack[..ridx + 1], o) == Complete(old(rstack[..ridx + 1]), obj)
        decreases ridx
      {
        CompleteStep(rstack[..ridx + 1], o);
        if ridx == 0 {
          reply := Some(o);
          ridx := ridx - 1;
          return;
        }
        var cur, prv := rstack[ridx], rstack[ridx - 1];
        ghost var st := rstack[..ridx + 1];
        assert st[..ridx] == rstack[..ridx] && st[..ridx - 1] == rstack[..ridx - 1];
        assert prv.kind == Some(KArray);
        prv := prv.(kids := prv.kids + [o]);
        if cur.idx == prv.elements - 1 {
          o := Array(prv.elements, prv.kids);
          ridx := ridx - 1;
        } else {
          assert cur.idx < prv.elements;
          rstack := rstack[ridx - 1 := prv][ridx := Fresh(cur.idx + 1)];
          assert rstack[..ridx + 1] == st[..ridx - 1] + [prv, Fresh(cur.idx + 1)];
          return;
        }
      }
    }

    /** The last task may be about to find that it is one level too deep. */
    ghost predicate Busy()
      reads this
    {
      pos <= |buf| && |rstack| == MAX_DEPTH && 0 <= ridx < MAX_DEPTH && Chain(rstack[..ridx + 1])
          && rstack[ridx].kids == [] && fault.None?
    }

    /** The state after a step with outcome `o` from tasks `st` and input `s`. */
    ghost predicate After(o: Outcome, st: Stack, s: string)
      reads this
    {
      Valid() &&
      match o
      case More => fault.None? && ridx >= 0 && Tasks() == st && Rest() == s
      case Bad(f) => fault == Some(f)
      case Go(st', used, out) =>
        && fault.None? && Tasks() == st' && used <= |s| && Rest() == s[used..]
        && (ridx == -1 <==> out.Some?) && (ridx == -1 ==> reply == out)
    }

    method ProcessLineItem(k: Kind) returns (ok: bool)
      requires Busy() && rstack[ridx].kind == Some(k) && (k.KError? || k.KStatus? || k.KInteger?)
      modifies this
      ensures After(ItemStep(old(rstack[..ridx + 1]), k, old(Rest())), old(rstack[..ridx + 1]), old(Rest()))
      ensures ok <==> ItemStep(old(rstack[..ridx + 1]), k, old(Rest())).Go?
    {
      hide Chain, Complete, Number, Crlf;
      var p := buf[pos..];
      var nl := SeekNewline(p);
      if nl.None? {
        return false;
      }
      NumberPrefix(p, nl.value);
      pos := pos + nl.value + 2;
      var obj;
      if k.KInteger? {
        var v := ReadLongLong(p);
        obj := Integer(v);
      } else {
        obj := if k.KError? then Error(p[..nl.value]) else Status(p[..nl.value]);
      }
      MoveToNextTask(obj);
      return true;
    }

    method ProcessBulkItem() returns (ok: bool)
      requires Busy() && rstack[ridx].kind == Some(KString)
      modifies this
      ensures After(ItemStep(old(rstack[..ridx + 1]), KString, old(Rest())), old(rstack[..ridx + 1]), old(Rest()))
      ensures ok <==> ItemStep(old(rstack[..ridx + 1]), KString, old(Rest())).Go?
    {
      hide Chain, Complete, Number, Crlf;
      var p := buf[pos..];
      var nl := SeekNewline(p);
      if nl.None? {
        return false;
      }
      var bytelen := nl.value + 2;
      var len := ReadLongLong(p);
      NumberPrefix(p, nl.value);
      var obj := Nil;
      if len >= 0 {
        bytelen := bytelen + len + 2;
        if pos + bytelen > |buf| {
          return false;
        }
        obj := Str(p[nl.value + 2..nl.value + 2 + len]);
      }
      pos := pos + bytelen;
      MoveToNextTask(obj);
      return true;
    }

    /** The task of the first element goes on the stack. */
    method PushTask(elements: int)
      requires Busy() && rstack[ridx].kind == Some(KArray) && ridx < MAX_DEPTH - 1 && elements > 0
      modifies this`rstack, this`ridx
      ensures Valid() && ridx > 0 && Tasks() == Push(old(rstack[..ridx + 1]), elements)
    {
      hide Chain;
      ghost var st := rstack[..ridx + 1];
      PushOk(st, elements);
      rstack := rstack[ridx := rstack[ridx].(elements := elements)][ridx + 1 := Fresh(0)];
      ridx := ridx + 1;
      assert rstack[..ridx + 1] == Push(st, elements);
    }

    method ProcessMultiBulkItem() returns (ok: bool)
      requires Busy() && rstack[ridx].kind == Some(KArray)
      modifies this
      ensures old(ridx) == MAX_DEPTH - 1 ==> !ok && Valid() && fault == Some(TooDeep)
      ensures old(ridx) < MAX_DEPTH - 1 ==> After(ItemStep(old(rstack[..ridx + 1]), KArray, old(Rest())),
          old(rstack[..ridx + 1]), old(Rest()))
      ensures old(ridx) < MAX_DEPTH - 1 ==> (ok <==> ItemStep(old(rstack[..ridx + 1]), KArray, old(Rest())).Go?)
    {
      hide Chain, Complete, Number, Crlf;
      if ridx == MAX_DEPTH - 1 {
        SetError(TooDeep);
        return false;
      }
      var p := buf[pos..];
      var nl := SeekNewline(p);
      if nl.None? {
        return false;
      }
      pos := pos + nl.value + 2;
      var elements := ReadLongLong(p);
      NumberPrefix(p, nl.value);
      if elements == -1 {
        MoveToNextTask(Nil);
      } else if elements > 0 {
        PushTask(elements);
      } else {
        MoveToNextTask(Array(elements, []));
      }
      return true;
    }

    /** Reads the type byte; false if there is none or it is unknown. */
    method ReadType() returns (ok: bool)
      requires Valid() && fault.None? && ridx >= 0 && rstack[ridx].kind.None?
      modifies this
      ensures ok <==> old(Rest()) != "" && KindOf(old(Rest())[0]).Some?
      ensures ok ==> Busy() && ridx == old(ridx) && rstack[..ridx + 1] == SetKind(old(rstack[..ridx + 1]),
          KindOf(old(Rest())[0]).value)
      ensures ok ==> Rest() == old(Rest())[1..] && rstack[ridx].kind == KindOf(old(Rest())[0])
      ensures old(Rest()) == "" ==> After(More, old(rstack[..ridx + 1]), "")
      ensures old(Rest()) != "" && !ok ==> Valid() && fault == Some(BadType(old(Rest())[0]))
    {
      hide Chain;
      if pos >= |buf| {
        return false;
      }
      var c := buf[pos];
      var kind := KindOf(c);
      ghost var st, s := rstack[..ridx + 1], Rest();
      assert s[1..] == buf[pos + 1..] && s[0] == c;
      pos := pos + 1;
      if kind.None? {
        SetError(BadType(c));
        return false;
      }
      ChainKids(st, st[ridx].(kind := kind));
      rstack := rstack[ridx := rstack[ridx].(kind := kind)];
      assert rstack[..ridx + 1] == SetKind(st, kind.value);
      return true;
    }

    method ProcessTyped(k: Kind) returns (ok: bool)
      requires Busy() && rstack[ridx].kind == Some(k)
      modifies this
      ensures k.KArray? && old(ridx) == MAX_DEPTH - 1 ==> !ok && Valid() && fault == Some(TooDeep)
      ensures !(k.KArray? && old(ridx) == MAX_DEPTH - 1) ==> After(ItemStep(old(rstack[..ridx + 1]), k, old(Rest())),
          old(rstack[..ridx + 1]), old(Rest()))
      ensures !(k.KArray? && old(ridx) == MAX_DEPTH - 1) ==> (ok
          <==> ItemStep(old(rstack[..ridx + 1]), k, old(Rest())).Go?)
    {
      hide Chain, Complete, ItemStep;
      if k.KString? {
        ok := ProcessBulkItem();
      } else if k.KArray? {
        ok := ProcessMultiBulkItem();
      } else {
        ok := ProcessLineItem(k);
      }
    }

    method ProcessItem() returns (ok: bool)
      requires Valid() && fault.None? && ridx >= 0
      modifies this
      ensures Valid() && Continues(old(rstack[..ridx + 1]), old(Rest()), ok)
    {
      hide Chain, Complete, ItemStep, TypeStep, Step, RunOne, SetKind;
      ghost var st, s := rstack[..ridx + 1], Rest();
      if rstack[ridx].kind.None? {
        if s == "" { TypeNone(st); } else { TypeSome(st, s); }
        ok := ReadType();
        if !ok {
          return;
        }
      }
      ghost var st1, s1 := rstack[..ridx + 1], Rest();
      var k := rstack[ridx].kind.value;
      ItemContinues(st1, k, s1);
      ok := ProcessTyped(k);
    }

    /** redisReaderFeed: false once the reader has failed. */
    method Feed(chunk: string) returns (ok: bool)
      requires Valid()
      modifies this
      ensures Valid() && fault == old(fault) && Tasks() == old(Tasks()) && (ok <==> fault.None?)
      ensures Rest() == if ok then old(Rest()) + chunk else old(Rest())
    {
      if fault.Some? {
        return false;
      }
      if |chunk| >= 1 {
        var spacious: bool := *;     // the buffer has more room than maxbuf
        if |buf| == 0 && spacious {
          buf, pos := "", 0;
        }
        assert (buf + chunk)[pos..] == buf[pos..] + chunk;
        buf := buf + chunk;
      }
      return true;
    }

    /** redisReaderGetReply: the next reply, None if there is none yet or the reader has failed. */
    method GetReply() returns (ok: bool, r: Option<Reply>)
      requires Valid()
      modifies this
      ensures Valid() && (ok <==> fault.None?) && (!ok ==> r.None?)
      ensures old(fault).Some? ==> fault == old(fault)
      ensures old(fault).None? ==> RunOne(old(Tasks()), old(Rest())) == One(r, fault, Tasks(), Rest())
    {
      hide StackOk, RunOne, Complete;
      r := None;
      if fault.Some? {
        return false, None;
      }
      if |buf| == 0 {
        NothingYet(Tasks());
        return true, None;
      }
      ghost var st, s := Tasks(), Rest();
      if ridx == -1 {
        FreshOk();
        rstack := rstack[0 := Fresh(-1)];
        ridx := 0;
        assert rstack[..1] == [Fresh(-1)];
      }
      var more := true;
      while ridx >= 0 && more
        invariant Valid() && (fault.None? || !more)
        invariant if fault.Some? then RunOne(st, s) == One(None, fault, [Fresh(-1)], "")
                  else if !more then ridx >= 0 && RunOne(st, s) == One(None, None, Tasks(), Rest())
                  else if ridx == -1 then reply.Some? && RunOne(st, s) == One(reply, None, Tasks(), Rest())
                  else RunOne(st, s) == RunOne(Tasks(), Rest())
        decreases more, |Rest()|
      {
        more := ProcessItem();
      }
      if fault.Some? {
        return false, None;
      }
      if pos >= 1024 {
        buf, pos := buf[pos..], 0;
      }
      if ridx == -1 {
        r, reply := reply, None;
      }
      return true, r;
    }

    /** Reading on from here gives what reading from `st` and `s` gives; `ok` tells if it can go on. */
    ghost predicate Continues(st: Stack, s: string, ok: bool)
      requires st != [] && Valid()
      reads this
    {
      if fault.Some? then !ok && RunOne(st, s) == One(None, fault, [Fresh(-1)], "")
      else if !ok then ridx >= 0 && RunOne(st, s) == One(None, None, Tasks(), Rest())
      else |Rest()| < |s| && if ridx == -1 then reply.Some? && RunOne(st, s) == One(reply, None, Tasks(), Rest())
                             else RunOne(st, s) == RunOne(Tasks(), Rest())
    }
  }

  // ---- Feeding in pieces --------------------------------------------------------------------------------

  /** Takes all replies there are. */
  method Drain(r: Reader) returns (replies: seq<Reply>)
    requires r.Valid() && r.fault.None?
    modifies r
    ensures r.Valid() && Run(old(r.Tasks()), old(r.Rest())) == Result(replies, r.fault, r.Tasks(), r.Rest())
  {
    hide Run, RunOne, StackOk;
    replies := [];
    ghost var whole := Run(r.Tasks(), r.Rest());
    assert [] + whole.out == whole.out;
    while true
      invariant r.Valid() && r.fault.None?
      invariant whole == Prefixed(replies, Run(r.Tasks(), r.Rest()))
      decreases |r.Rest()|
    {
      RunFromOne(r.Tasks(), r.Rest());
      var ok, reply := r.GetReply();
      if !ok || reply.None? {
        assert replies + [] == replies;
        return;
      }
      assert replies + ([reply.value] + Run(r.Tasks(), r.Rest()).out) == (replies + [reply.value]) + Run(r.Tasks(),
          r.Rest()).out;
      replies := replies + [reply.value];
    }
  }

  function Prefixed(out: seq<Reply>, r: Result): Result { r.(out := out + r.out) }

  /** However the input is cut up, with the replies taken after each piece, the same replies come and the same
      fault ends them. */
  method ReadAll(chunks: seq<string>) returns (replies: seq<Reply>, fault: Option<Fault>)
    ensures replies == Parse(Concat(chunks)).out && fault == Parse(Concat(chunks)).fault
  {
    hide Run, StackOk;
    var r := new Reader();
    replies := [];
    EmptyRun();
    for i := 0 to |chunks|
      invariant fresh(r) && r.Valid() && Parse(Concat(chunks[..i])) == Result(replies, r.fault, r.Tasks(), r.Rest())
    {
      ConcatTake(chunks, i);
      RunAppend([Fresh(-1)], Concat(chunks[..i]), chunks[i]);
      var ok := r.Feed(chunks[i]);
      if ok {
        var more := Drain(r);
        replies := replies + more;
      }
    }
    assert chunks[..|chunks|] == chunks;
    fault := r.fault;
  }

  lemma EmptyRun()
    ensures Run([Fresh(-1)], "") == Result([], None, [Fresh(-1)], "")
  {
  }
}

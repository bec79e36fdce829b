/** The callbacks of asynchronous commands (deps/hiredis/async.c): a list in submission order, drained by replies
    or, at teardown, without one, by callbacks that may themselves free, disconnect or submit. */
module AsyncQueue {
  import opened Hiredis
  import opened Options

  datatype Reply = Error(text: string) | Other(text: string)

  // ---- The list -----------------------------------------------------------------------------------------

  datatype Node = Node(cb: Callback, next: Ptr)
  type Memory = map<Ptr, Node>

  ghost predicate Linked(m: Memory, head: Ptr, nodes: seq<Ptr>)
    decreases |nodes|
  {
    if nodes == [] then head == NULL else
    && head == nodes[0] && head != NULL && head in m && head !in nodes[1..] && Linked(m, m[head].next, nodes[1..])
  }

  ghost function Callbacks(m: Memory, nodes: seq<Ptr>): seq<Callback>
    requires forall p :: p in nodes ==> p in m
  {
    if nodes == [] then [] else [m[nodes[0]].cb] + Callbacks(m, nodes[1..])
  }

  lemma {:induction false} LinkedIn(m: Memory, head: Ptr, nodes: seq<Ptr>)
    requires Linked(m, head, nodes)
    ensures forall p :: p in nodes ==> p in m && p != NULL
    decreases |nodes|
  {
    if nodes != [] {
      LinkedIn(m, m[head].next, nodes[1..]);
      assert nodes == [nodes[0]] + nodes[1..];
    }
  }

  /** The last node gets a successor. */
  lemma {:induction false} LinkedAppend(m: Memory, head: Ptr, nodes: seq<Ptr>, p: Ptr, cb: Callback)
    requires Linked(m, head, nodes) && nodes != [] && p !in m && p != NULL
    ensures var last := nodes[|nodes| - 1];
            last in m && Linked(m[p := Node(cb, NULL)][last := m[last].(next := p)], head, nodes + [p])
    decreases |nodes|
  {
    LinkedIn(m, head, nodes);
    var last := nodes[|nodes| - 1];
    var m' := m[p := Node(cb, NULL)][last := m[last].(next := p)];
    if |nodes| == 1 {
      assert (nodes + [p])[1..] == [p] && [p][1..] == [];
      assert Linked(m', p, [p]);
    } else {
      LinkedAppend(m, m[head].next, nodes[1..], p, cb);
      assert (nodes + [p])[1..] == nodes[1..] + [p];
    }
  }

  lemma {:induction false} LinkedFrame(m: Memory, m': Memory, head: Ptr, nodes: seq<Ptr>)
    requires Linked(m, head, nodes) && forall p :: p in nodes && p in m ==> p in m' && m'[p] == m[p]
    ensures Linked(m', head, nodes) && (forall p :: p in nodes ==> p in m && p in m')
        && Callbacks(m', nodes) == Callbacks(m, nodes)
    decreases |nodes|
  {
    LinkedIn(m, head, nodes);
    if nodes != [] { LinkedFrame(m, m', m[head].next, nodes[1..]); }
  }

  lemma {:induction false} CallbacksAppend(m: Memory, m': Memory, nodes: seq<Ptr>, p: Ptr)
    requires (forall q :: q in nodes ==> q in m && q in m' && m'[q].cb == m[q].cb) && p in m'
    ensures Callbacks(m', nodes + [p]) == Callbacks(m, nodes) + [m'[p].cb]
  {
    if nodes == [] {
      assert nodes + [p] == [p] && [p][1..] == [];
    } else {
      assert (nodes + [p])[1..] == nodes[1..] + [p];
      CallbacksAppend(m, m', nodes[1..], p);
    }
  }

  lemma HeadOf(m: Memory, head: Ptr, nodes: seq<Ptr>)
    requires Linked(m, head, nodes)
    ensures if nodes == [] then head == NULL else head == nodes[0] && head != NULL
  {
  }

  lemma LinkedOne(m: Memory, p: Ptr)
    requires p in m && p != NULL && m[p].next == NULL
    ensures Linked(m, p, [p])
  {
    assert [p][1..] == [];
  }

  class CallbackList {
    var mem: Memory
    var head: Ptr
    var tail: Ptr
    var brk: nat                 // addresses from here on are free
    ghost var nodes: seq<Ptr>

    constructor ()
      ensures Valid() && Contents() == []
    {
      mem, head, tail, brk, nodes := map[], NULL, NULL, 1, [];
    }

    ghost predicate Valid()
      reads this
    {
      && Linked(mem, head, nodes) && tail == (if nodes == [] then NULL else nodes[|nodes| - 1])
      && brk > 0 && (forall p :: p in mem ==> p < brk) && (forall p :: p in nodes ==> p in mem)
    }

    ghost function Contents(): seq<Callback>
      requires forall p :: p in nodes ==> p in mem
      reads this
    {
      Callbacks(mem, nodes)
    }

    /** __redisPushCallback. */
    method Push(source: Callback)
      requires Valid()
      modifies this
      ensures Valid() && Contents() == old(Contents()) + [source]
    {
      hide Linked;
      var cb := brk;
      ghost var m0, n0 := mem, nodes;
      brk := brk + 1;
      mem := mem[cb := Node(source, NULL)];
      HeadOf(m0, head, nodes);
      LinkedIn(m0, head, nodes);
      if nodes == [] { LinkedOne(mem, cb); assert nodes + [cb] == [cb]; }
      else { LinkedAppend(m0, head, nodes, cb, source); }
      if head == NULL {
        head := cb;
      }
      if tail != NULL {
        mem := mem[tail := mem[tail].(next := cb)];
      }
      tail := cb;
      nodes := nodes + [cb];
      CallbacksAppend(m0, mem, n0, cb);
    }

    /** __redisShiftCallback: None when the list is empty. */
    method Shift() returns (r: Option<Callback>)
      requires Valid()
      modifies this
      ensures Valid() && (r.None? <==> old(Contents()) == [])
      ensures r.None? ==> Contents() == []
      ensures r.Some? ==> old(Contents()) == [r.value] + Contents()
    {
      var cb := head;
      if cb == NULL {
        return None;
      }
      var node := mem[cb];
      LinkedIn(mem, node.next, nodes[1..]);
      LinkedFrame(mem, mem - {cb}, node.next, nodes[1..]);
      head := node.next;
      if cb == tail {
        tail := NULL;
      }
      mem := mem - {cb};
      nodes := nodes[1..];
      return Some(node.cb);
    }
  }

  // ---- The context ----------------------------------------------------------------------------------------

  /** What a callback does to the context it is called on. */
  datatype Action = Submit(cb: Callback) | Free | Disconnect

  /** A callback taken off the list, with the reply it was for, None at teardown. */
  datatype Settled = Settled(cb: Callback, reply: Option<Reply>)

  ghost function Owners(s: seq<Settled>): seq<Callback> {
    if s == [] then [] else Owners(s[..|s| - 1]) + [s[|s| - 1].cb]
  }

  lemma OwnersSnoc(s: seq<Settled>, x: Settled)
    ensures Owners(s + [x]) == Owners(s) + [x.cb]
  {
    assert (s + [x])[..|s|] == s;
  }

  /** Those that have a function to call. */
  ghost function Callable(s: seq<Settled>): seq<Settled> {
    if s == [] then [] else Callable(s[..|s| - 1]) + if s[|s| - 1].cb.fn != 0 then [s[|s| - 1]] else []
  }

  lemma CallableSnoc(s: seq<Settled>, x: Settled)
    ensures Callable(s + [x]) == Callable(s) + if x.cb.fn != 0 then [x] else []
  {
    assert (s + [x])[..|s|] == s;
  }

  /** Reply number `k` went to callback number `k`; the callbacks after the last reply got none. */
  ghost predicate Matched(settled: seq<Settled>, received: seq<Reply>) {
    |received| <= |settled| &&
    forall k :: 0 <= k < |settled| ==> settled[k].reply == if k < |received| then Some(received[k]) else None
  }

  lemma MatchedSnoc(settled: seq<Settled>, received: seq<Reply>, cb: Callback, reply: Option<Reply>)
    requires Matched(settled, received) && (reply.Some? ==> |received| == |settled|)
    ensures Matched(settled + [Settled(cb, reply)], if reply.Some? then received + [reply.value] else received)
  {
  }

  function Script(scripts: seq<seq<Action>>, i: nat): seq<Action> { if i < |scripts| then scripts[i] else [] }

  /** The commands of a script that are accepted: none once a free or a disconnect has been asked for. */
  function Admitted(script: seq<Action>, leaving: bool): seq<Callback> {
    if script == [] then [] else
    var before, last := script[..|script| - 1], script[|script| - 1];
    Admitted(before, leaving) +
    if last.Submit? && !leaving && Free !in before && Disconnect !in before then [last.cb] else []
  }

  lemma AdmittedNext(script: seq<Action>, i: nat, leaving: bool)
    requires i < |script|
    ensures var before := script[..i];
            Admitted(script[..i + 1], leaving) == Admitted(before, leaving) +
            if script[i].Submit? && !leaving && Free !in before && Disconnect !in before then [script[i].cb] else []
  {
    assert script[..i + 1][..i] == script[..i];
  }

  lemma {:induction false} NoneAdmitted(script: seq<Action>)
    ensures Admitted(script, true) == []
  {
    if script != [] { NoneAdmitted(script[..|script| - 1]); }
  }

  lemma ListEmpty(m: Memory, head: Ptr, nodes: seq<Ptr>)
    requires Linked(m, head, nodes) && forall p :: p in nodes ==> p in m
    ensures head == NULL <==> Callbacks(m, nodes) == []
  {
  }

  // ---- Moments --------------------------------------------------------------------------------------------

  /** The commands accepted, the replies received, the callbacks settled and the calls of their functions. */
  datatype Book = Book(accepted: seq<Callback>, received: seq<Reply>, settled: seq<Settled>, called: seq<Settled>)

  /** A context at one moment; `waiting` is what its list holds. */
  datatype Moment = Moment(disconnecting: bool, freeing: bool, failed: bool, flushed: bool, freed: bool, aborted: bool,
                           waiting: seq<Callback>, book: Book)

  const START := Moment(false, false, false, true, false, false, [], Book([], [], [], []))

  /** Every accepted command is settled, in order, or waits in the list, in order; those settled have been called. */
  ghost predicate Ledger(waiting: seq<Callback>, b: Book) {
    b.accepted == Owners(b.settled) + waiting && Matched(b.settled, b.received) && b.called == Callable(b.settled)
  }

  function Accept(b: Book, more: seq<Callback>): (r: Book)
    ensures r.received == b.received && b.accepted <= r.accepted
  {
    b.(accepted := b.accepted + more)
  }

  lemma LedgerAccept(waiting: seq<Callback>, b: Book, more: seq<Callback>)
    requires Ledger(waiting, b)
    ensures Ledger(waiting + more, Accept(b, more))
  {
    hide Owners, Matched, Callable;
    assert Owners(b.settled) + waiting + more == Owners(b.settled) + (waiting + more);
  }

  function Settle(b: Book, x: Settled): Book {
    b.(settled := b.settled + [x], received := if x.reply.Some? then b.received + [x.reply.value] else b.received,
       called := if x.cb.fn != 0 then b.called + [x] else b.called)
  }

  lemma LedgerSettle(waiting: seq<Callback>, b: Book, x: Settled)
    requires Ledger([x.cb] + waiting, b) && (x.reply.Some? ==> |b.received| == |b.settled|)
    ensures Ledger(waiting, Settle(b, x))
  {
    hide Owners, Matched, Callable;
    OwnersSnoc(b.settled, x);
    CallableSnoc(b.settled, x);
    MatchedSnoc(b.settled, b.received, x.cb, x.reply);
    assert Owners(b.settled) + ([x.cb] + waiting) == (Owners(b.settled) + [x.cb]) + waiting;
    assert b.called + [] == b.called;
  }

  /** Commands are accepted: they wait, and there is output to write. */
  ghost function Issued(s: Moment, more: seq<Callback>): Moment {
    s.(waiting := s.waiting + more, book := Accept(s.book, more), flushed := s.flushed && more == [])
  }

  /** A callback function has done what it does. */
  ghost function Acted(s: Moment, script: seq<Action>): Moment {
    Issued(Flagged(s, script), Admitted(script, s.disconnecting || s.freeing))
  }

  ghost function Flagged(s: Moment, script: seq<Action>): Moment {
    s.(disconnecting := s.disconnecting || Disconnect in script, freeing := s.freeing || Free in script)
  }

  /** The callback that waits first is settled. */
  ghost function Settling(s: Moment, reply: Option<Reply>): Moment
    requires s.waiting != []
  {
    s.(waiting := s.waiting[1..], book := Settle(s.book, Settled(s.waiting[0], reply)))
  }

  /** It is settled and its function, if it has one, called. */
  ghost function Handled(s: Moment, reply: Option<Reply>, script: seq<Action>): Moment
    requires s.waiting != []
  {
    if s.waiting[0].fn != 0 then Acted(Settling(s, reply), script) else Settling(s, reply)
  }

  ghost function Unanswered(w: seq<Callback>): seq<Settled> {
    if w == [] then [] else [Settled(w[0], None)] + Unanswered(w[1..])
  }

  /** Those that wait are settled without a reply. */
  ghost function CloseBook(waiting: seq<Callback>, b: Book): (r: Book)
    ensures r.accepted == b.accepted && r.received == b.received
  {
    var all := b.settled + Unanswered(waiting);
    b.(settled := all, called := Callable(all))
  }

  /** The context is freed. */
  ghost function EndOf(s: Moment): Moment {
    s.(freed := true, waiting := [], book := CloseBook(s.waiting, s.book))
  }

  /** The same, but for the flags of a context that is freed. */
  ghost predicate Same(s: Moment, t: Moment) {
    if s.freed then t.freed && t.aborted == s.aborted && t.waiting == s.waiting && t.book == s.book else t == s
  }

  /** redisProcessCallbacks from reply number `i` on: each goes to the callback that waits first; a free, a fault and a
      disconnect that has waited for replies and output end the context. */
  ghost function Process(s: Moment, incoming: seq<Reply>, fails: bool, scripts: seq<seq<Action>>, i: nat): Moment
    requires i <= |incoming|
    decreases |incoming| - i
  {
    if i == |incoming| then
      if fails || (s.disconnecting && s.flushed && s.waiting == []) then EndOf(s) else s
    else if s.waiting == [] then
      if incoming[i].Error? then EndOf(s) else s.(aborted := true)
    else
      var t := Handled(s, Some(incoming[i]), Script(scripts, i));
      if s.waiting[0].fn != 0 && t.freeing then EndOf(t) else Process(t, incoming, fails, scripts, i + 1)
  }

  /** A disconnect was asked for before, or by one of the callbacks from `i` to `n`. */
  ghost predicate Leaving(before: bool, scripts: seq<seq<Action>>, i: nat, n: nat)
    decreases n - i
  {
    before || (i < n && Leaving(Disconnect in Script(scripts, i), scripts, i + 1, n))
  }

  lemma LeavingNow(before: bool, scripts: seq<seq<Action>>, i: nat)
    ensures before ==> Leaving(before, scripts, i, i)
  {
  }

  lemma HandledParts(s: Moment, reply: Reply, script: seq<Action>)
    requires s.waiting != []
    ensures var t := Handled(s, Some(reply), script);
            && t.book.received == s.book.received + [reply] && s.book.accepted <= t.book.accepted
            && t.freed == s.freed && t.aborted == s.aborted
            && (t.disconnecting ==> s.disconnecting || Disconnect in script)
            && (t.freeing ==> s.freeing || (Free in script && s.waiting[0].fn != 0))
  {
    hide Admitted, Accept, Acted, Settling;
    SettlingParts(s, reply);
    ActedParts(Settling(s, Some(reply)), script);
  }

  lemma SettlingParts(s: Moment, reply: Reply)
    requires s.waiting != []
    ensures var t := Settling(s, Some(reply));
            t.book.received == s.book.received + [reply] && t == s.(waiting := s.waiting[1..], book := t.book)
            && t.book.accepted == s.book.accepted
  {
  }

  lemma ActedParts(s: Moment, script: seq<Action>)
    ensures var t := Acted(s, script);
            && t.book.received == s.book.received && s.book.accepted <= t.book.accepted
            && t.freed == s.freed && t.aborted == s.aborted
            && (t.disconnecting <==> s.disconnecting || Disconnect in script)
            && (t.freeing <==> s.freeing || Free in script)
  {
    hide Admitted, Accept;
  }

  /** `n` replies are handed out. The context is aborted exactly by a reply that nobody waits for and that is no error;
      it is freed by a fault, by an error nobody waits for, by a free, or by a disconnect once all replies are in. */
  lemma {:induction false} ProcessMeans(s: Moment, incoming: seq<Reply>, fails: bool, scripts: seq<seq<Action>>, i: nat)
      returns (n: nat)
    requires i <= |incoming| && !s.freed && !s.aborted && !s.freeing
    ensures var t := Process(s, incoming, fails, scripts, i);
            && i <= n <= |incoming| && t.book.received == s.book.received + incoming[i..n]
            && s.book.accepted <= t.book.accepted
            && !(t.freed && t.aborted) && (!t.freed && !t.aborted ==> n == |incoming| && !fails)
            && (t.aborted ==> n < |incoming| && incoming[n].Other? && t.waiting == [])
            && (t.freed ==>
                  || (n == |incoming| && fails) || (n < |incoming| && incoming[n].Error?)
                  || (n > i && Free in Script(scripts, n - 1))
                  || (n == |incoming| && Leaving(s.disconnecting, scripts, i, n)))
            && (!t.freed && !t.aborted ==>
                  && !(t.disconnecting && t.flushed && t.waiting == [])
                  && (t.disconnecting ==> Leaving(s.disconnecting, scripts, i, n)))
    decreases |incoming| - i
  {
    hide Handled, CloseBook, Leaving;
    n := i;
    LeavingNow(s.disconnecting, scripts, i);
    assert s.book.received + incoming[i..i] == s.book.received;
    if i < |incoming| && s.waiting != [] {
      var t := Handled(s, Some(incoming[i]), Script(scripts, i));
      HandledParts(s, incoming[i], Script(scripts, i));
      n := i + 1;
      assert incoming[i..n] == [incoming[i]];
      if !(s.waiting[0].fn != 0 && t.freeing) {
        n := ProcessMeans(t, incoming, fails, scripts, i + 1);
        assert incoming[i..n] == [incoming[i]] + incoming[i + 1..n];
        assert s.book.received + [incoming[i]] + incoming[i + 1..n] == s.book.received + incoming[i..n];
        LeavingThrough(s.disconnecting, t.disconnecting, scripts, i, n);
      }
    }
  }

  lemma LeavingThrough(before: bool, after: bool, scripts: seq<seq<Action>>, i: nat, n: nat)
    requires i < n && (after ==> before || Disconnect in Script(scripts, i))
    ensures Leaving(after, scripts, i + 1, n) ==> Leaving(before, scripts, i, n)
  {
  }

  lemma ActedNone(s: Moment)
    ensures Acted(s, []) == s
  {
    assert s.waiting + [] == s.waiting && s.book.accepted + [] == s.book.accepted;
  }

  lemma IssuedTwice(s: Moment, more: seq<Callback>, cb: Callback)
    ensures Issued(s, more + [cb]) == Issued(Issued(s, more), [cb])
  {
    assert (s.waiting + more) + [cb] == s.waiting + (more + [cb]);
    assert (s.book.accepted + more) + [cb] == s.book.accepted + (more + [cb]);
  }

  lemma FlaggedNext(s: Moment, script: seq<Action>, i: nat)
    requires i < |script|
    ensures var t := Flagged(s, script[..i]);
            Flagged(s, script[..i + 1]) ==
            match script[i]
            case Submit(_) => t
            case Free => t.(freeing := true)
            case Disconnect => t.(disconnecting := true)
  {
    assert script[..i + 1] == script[..i] + [script[i]];
    assert Free in script[..i + 1] <==> Free in script[..i] || script[i] == Free;
    assert Disconnect in script[..i + 1] <==> Disconnect in script[..i] || script[i] == Disconnect;
  }

  lemma ActedNext(s: Moment, script: seq<Action>, i: nat)
    requires i < |script|
    ensures var t := Acted(s, script[..i]);
            Acted(s, script[..i + 1]) ==
            match script[i]
            case Submit(cb) => if t.disconnecting || t.freeing then t else Issued(t, [cb])
            case Free => t.(freeing := true)
            case Disconnect => t.(disconnecting := true)
  {
    hide Admitted;
    var leaving := s.disconnecting || s.freeing;
    AdmittedNext(script, i, leaving);
    FlaggedNext(s, script, i);
    var a := Admitted(script[..i], leaving);
    assert a + [] == a;
    if script[i].Submit? { IssuedTwice(Flagged(s, script[..i]), a, script[i].cb); }
  }

  lemma LedgerEnd(b: Book)
    requires Ledger([], b)
    ensures b.accepted == Owners(b.settled) && CloseBook([], b) == b
  {
    hide Owners, Matched, Callable;
    assert Owners(b.settled) + [] == Owners(b.settled) && b.settled + [] == b.settled;
  }

  lemma CloseSettled(cb: Callback, waiting: seq<Callback>, b: Book)
    ensures CloseBook(waiting, Settle(b, Settled(cb, None))) == CloseBook([cb] + waiting, b)
  {
    hide Callable;
    assert ([cb] + waiting)[1..] == waiting;
    assert (b.settled + [Settled(cb, None)]) + Unanswered(waiting)
        == b.settled + ([Settled(cb, None)] + Unanswered(waiting));
  }

  /** A callback called at teardown does not change the end. */
  lemma EndOfHandled(s: Moment, script: seq<Action>)
    requires s.waiting != [] && (s.disconnecting || s.freeing)
    ensures var t := Handled(s, None, script);
            && Same(EndOf(s), EndOf(t)) && |t.waiting| < |s.waiting| && (t.disconnecting || t.freeing)
            && t.freed == s.freed && t.aborted == s.aborted
  {
    hide CloseBook, Settle, Acted;
    var cb, rest := s.waiting[0], s.waiting[1..];
    assert s.waiting == [cb] + rest;
    CloseSettled(cb, rest, s.book);
    ActedLeaving(Settling(s, None), script);
  }

  /** Nothing is accepted from a callback once a free or a disconnect has been asked for. */
  lemma ActedLeaving(s: Moment, script: seq<Action>)
    requires s.disconnecting || s.freeing
    ensures Acted(s, script) == Flagged(s, script)
  {
    NoneAdmitted(script);
    assert s.waiting + [] == s.waiting && s.book.accepted + [] == s.book.accepted;
  }

  // ---- Events ---------------------------------------------------------------------------------------------

  /** What can happen to a context outside its callbacks; `scripts` is what the callbacks do that run meanwhile. */
  datatype Event =
      Issue(cb: Callback) | Incoming(incoming: seq<Reply>, fails: bool, scripts: seq<seq<Action>>)
    | FreeNow(scripts: seq<seq<Action>>) | DisconnectNow(scripts: seq<seq<Action>>) | Failure(scripts: seq<seq<Action>>)
    | Flushed

  /** What an event makes of a context; nothing happens to one that has ended. */
  ghost predicate Follows(s: Moment, e: Event, s': Moment) {
    if s.freed || s.aborted then s' == s else
    match e
    case Issue(cb) => s' == if s.disconnecting then s else Issued(s, [cb])
    case Incoming(incoming, fails, scripts) => Same(Process(s, incoming, fails, scripts, 0), s')
    case FreeNow(_) => Same(EndOf(s), s')
    case DisconnectNow(_) => if s.waiting == [] then Same(EndOf(s), s') else s' == s.(disconnecting := true)
    case Failure(_) => Same(EndOf(s), s')
    case Flushed => s' == s.(flushed := true)
  }

  /** The context was at these moments, with one of the events between each two. */
  ghost predicate IsRun(states: seq<Moment>, events: seq<Event>) {
    && |states| == |events| + 1 && states[0] == START
    && forall i :: 0 <= i < |events| ==> Follows(states[i], events[i], states[i + 1])
  }

  class AsyncContext {
    const replies: CallbackList
    var disconnecting: bool
    var freeing: bool
    var inCallback: bool
    var failed: bool               // err
    var flushed: bool              // the output buffer is empty
    var freed: bool
    var aborted: bool              // a failed assertion
    ghost var book: Book

    constructor ()
      ensures Valid() && fresh(replies) && Now() == START
    {
      replies := new CallbackList();
      disconnecting, freeing, inCallback, failed := false, false, false, false;
      flushed, freed, aborted := true, false, false;
      book := Book([], [], [], []);
      new;
      assert Owners([]) == [];
    }

    ghost function Now(): Moment
      requires replies.Valid()
      reads this, replies
    {
      Moment(disconnecting, freeing, failed, flushed, freed, aborted, replies.Contents(), book)
    }

    ghost predicate Core()
      reads this, replies
    {
      replies.Valid() && Ledger(replies.Contents(), book)
    }

    ghost predicate Valid()
      reads this, replies
    {
      Core() && !freed && !aborted && !freeing && !inCallback && |book.received| == |book.settled|
    }

    /** __redisAsyncCommand for commands other than SUBSCRIBE, UNSUBSCRIBE and MONITOR. */
    method Command(cb: Callback) returns (ok: bool)
      requires Core()
      modifies this`book, this`flushed, replies
      ensures Core() && ok == !(disconnecting || freeing)
      ensures Now() == if ok then Issued(old(Now()), [cb]) else old(Now())
    {
      hide Ledger, Callbacks, Linked;
      LedgerAccept(replies.Contents(), book, [cb]);
      if disconnecting || freeing {
        return false;
      }
      replies.Push(cb);
      book := Accept(book, [cb]);
      flushed := false;
      return true;
    }

    /** The callback function: free and disconnect only raise flags while it runs. */
    method RunActions(script: seq<Action>)
      requires Core() && inCallback
      modifies this`disconnecting, this`freeing, this`book, this`flushed, replies
      ensures Core() && Now() == Acted(old(Now()), script)
    {
      hide Ledger, Callbacks, Linked, Acted, Issued;
      ghost var s := Now();
      ActedNone(s);
      for i := 0 to |script|
        invariant Core() && Now() == Acted(s, script[..i])
      {
        ActedNext(s, script, i);
        match script[i]
        case Submit(cb) => var ok := Command(cb);
        case Free => freeing := true;
        case Disconnect => disconnecting := true;
      }
      assert script[..|script|] == script;
    }

    /** __redisRunCallback: a flag tells that the function runs. */
    method RunCallback(script: seq<Action>)
      requires Core() && !inCallback
      modifies this`inCallback, this`disconnecting, this`freeing, this`book, this`flushed, replies
      ensures Core() && !inCallback && Now() == Acted(old(Now()), script)
    {
      hide Ledger, Callbacks, Linked, Acted;
      inCallback := true;
      RunActions(script);
      inCallback := false;
    }

    /** __redisShiftCallback and __redisRunCallback: the callback that waits first gets the reply, if there is one. */
    method HandleNext(reply: Option<Reply>, script: seq<Action>) returns (cb: Option<Callback>)
      requires Core() && !inCallback && (reply.Some? ==> |book.received| == |book.settled|)
      modifies this`inCallback, this`disconnecting, this`freeing, this`book, this`flushed, replies
      ensures Core() && !inCallback && (cb.None? <==> old(replies.Contents()) == [])
      ensures if cb.None? then Now() == old(Now())
              else cb.value == old(replies.Contents())[0] && Now() == Handled(old(Now()), reply, script)
    {
      hide Ledger, Callbacks, Linked, Acted, Settle;
      ghost var s := Now();
      cb := replies.Shift();
      if cb.None? {
        return;
      }
      var x := Settled(cb.value, reply);
      LedgerSettle(replies.Contents(), book, x);
      assert s.waiting[1..] == replies.Contents();
      book := Settle(book, x);
      if cb.value.fn != 0 {
        RunCallback(script);
      }
    }

    /** Everything accepted has been settled, once and in order. */
    ghost predicate Done()
      reads this, replies
    {
      freed && !aborted && Core() && replies.Contents() == [] && book.accepted == Owners(book.settled)
    }

    /** __redisAsyncFree: the pending callbacks run without a reply; what they submit is refused, so it ends. */
    method DoFree(scripts: seq<seq<Action>>)
      requires Core() && !freed && !aborted && !inCallback && (disconnecting || freeing || replies.Contents() == [])
      modifies this, replies
      ensures Done() && Same(EndOf(old(Now())), Now())
    {
      hide Ledger, Callbacks, Linked, Handled, CloseBook;
      var i := 0;
      ghost var s := Now();
      while true
        invariant Core() && !inCallback && (disconnecting || freeing || replies.Contents() == []) && !aborted && !freed
        invariant Same(EndOf(s), EndOf(Now()))
        decreases |replies.Contents()|
      {
        if replies.Contents() != [] { EndOfHandled(Now(), Script(scripts, i)); }
        var cb := HandleNext(None, Script(scripts, i));
        if cb.None? {
          break;
        }
        i := i + 1;
      }
      LedgerEnd(book);
      freed := true;
    }

    /** __redisAsyncDisconnect; without an error there must be nothing pending. */
    method DoDisconnect(scripts: seq<seq<Action>>)
      requires Core() && !freed && !aborted && !inCallback && (!failed ==> replies.Contents() == [])
      modifies this, replies
      ensures Done() && Same(EndOf(old(Now())), Now())
    {
      hide Ledger, Callbacks, Linked, Callable;
      if !failed {
        var ret := replies.Shift();
        assert ret.None?;
      } else {
        disconnecting := true;
      }
      DoFree(scripts);
    }

    /** redisAsyncFree, at once unless a callback is running. */
    method AsyncFree(scripts: seq<seq<Action>>)
      requires Valid()
      modifies this, replies
      ensures Done() && Same(EndOf(old(Now())), Now())
    {
      hide Ledger, Callbacks, Linked, Callable;
      freeing := true;
      DoFree(scripts);
    }

    /** redisAsyncDisconnect: at once if nothing is pending. */
    method AsyncDisconnect(scripts: seq<seq<Action>>)
      requires Valid()
      modifies this, replies
      ensures if old(replies.Contents()) == [] then Done() && Same(EndOf(old(Now())), Now())
              else Valid() && Now() == old(Now()).(disconnecting := true)
    {
      hide Ledger, Linked, Callable;
      ListEmpty(replies.mem, replies.head, replies.nodes);
      disconnecting := true;
      if replies.head == NULL {
        DoDisconnect(scripts);
      }
    }

    /** A read or write failed. */
    method OnFailure(scripts: seq<seq<Action>>)
      requires Valid()
      modifies this, replies
      ensures Done() && Same(EndOf(old(Now())), Now())
    {
      hide Ledger, Callbacks, Linked, Callable;
      failed := true;
      DoDisconnect(scripts);
    }

    method OnFlushed()
      requires Valid()
      modifies this`flushed
      ensures Valid() && Now() == old(Now()).(flushed := true)
    {
      flushed := true;
    }

    /** The end of redisProcessCallbacks: a fault of the reader ends the context, and so does a disconnect that has
        waited for the replies and for the output. */
    method AfterReplies(fails: bool, scripts: seq<seq<Action>>)
      requires Valid()
      modifies this, replies
      ensures freed <==> fails || old(disconnecting && flushed && replies.Contents() == [])
      ensures if freed then Done() && Same(EndOf(old(Now())), Now()) else Valid() && Now() == old(Now())
    {
      hide Ledger, Linked, Callable;
      if fails {
        OnFailure(scripts);
      } else {
        ListEmpty(replies.mem, replies.head, replies.nodes);
        if disconnecting && flushed && replies.head == NULL {
          DoDisconnect(scripts);
        }
      }
    }

    /** One turn of the loop of redisProcessCallbacks; `over` when it ends the context or fails an assertion. */
    method HandleReply(reply: Reply, script: seq<Action>, scripts: seq<seq<Action>>) returns (over: bool)
      requires Valid()
      modifies this, replies
      ensures var s := old(Now());
              if s.waiting == [] then
                over && if reply.Error? then Done() && Same(EndOf(s), Now()) else Core() && Now() == s.(aborted := true)
              else
                var t := Handled(s, Some(reply), script);
                && (over <==> s.waiting[0].fn != 0 && t.freeing)
                && if over then Done() && Same(EndOf(t), Now()) else Valid() && Now() == t
    {
      hide Ledger, Callbacks, Linked, EndOf;
      ghost var s := Now();
      var cb := HandleNext(Some(reply), script);
      if cb.None? {
        if reply.Error? {
          OnFailure(scripts);
        } else {
          aborted := true;
        }
        return true;
      }
      over := cb.value.fn != 0 && freeing;
      if over {
        DoFree(scripts);
      }
    }

    /** redisProcessCallbacks on the replies `incoming`, after which the reader has no more or, `fails`, is at fault. */
    method ProcessCallbacks(incoming: seq<Reply>, fails: bool, scripts: seq<seq<Action>>)
      requires Valid()
      modifies this, replies
      ensures Sound() && Same(Process(old(Now()), incoming, fails, scripts, 0), Now())
    {
      hide Ledger, Callbacks, Linked, Callable, Handled, EndOf;
      ghost var s := Now();
      var n := 0;
      while n < |incoming|
        invariant 0 <= n <= |incoming| && Valid()
        invariant Process(Now(), incoming, fails, scripts, n) == Process(s, incoming, fails, scripts, 0)
        decreases |incoming| - n
      {
        var over := HandleReply(incoming[n], Script(scripts, n), scripts);
        if over {
          return;
        }
        n := n + 1;
      }
      AfterReplies(fails, scripts);
    }

    /** The context is at work, or has ended in one way or the other. */
    ghost predicate Sound()
      reads this, replies
    {
      if freed then Done() else if aborted then Core() else Valid()
    }

    /** One event outside callbacks, unless the context has ended. */
    method Step(e: Event) returns (taken: bool)
      requires Sound()
      modifies this, replies
      ensures Sound() && taken == !(old(freed) || old(aborted)) && Follows(old(Now()), e, Now())
    {
      hide Ledger, Callbacks, Linked, Callable, Process, EndOf;
      taken := !(freed || aborted);
      if !taken {
        return;
      }
      match e
      case Issue(cb) => var ok := Command(cb);
      case Incoming(incoming, fails, scripts) => ProcessCallbacks(incoming, fails, scripts);
      case FreeNow(scripts) => AsyncFree(scripts);
      case DisconnectNow(scripts) => AsyncDisconnect(scripts);
      case Failure(scripts) => OnFailure(scripts);
      case Flushed => OnFlushed();
    }
  }

  /** A context from its start, through any events in any order, whatever its callbacks do: the commands accepted are
      those settled, in order, followed by those that wait, in order; the k-th reply went to the k-th of them, those
      without a reply come after those with one, and every callback function was called once for each. Nothing waits
      once the context is freed. */
  method Serve(events: seq<Event>) returns (c: AsyncContext, ghost states: seq<Moment>)
    ensures c.replies.Valid() && IsRun(states, events) && c.Now() == states[|events|]
    ensures c.book.accepted == Owners(c.book.settled) + c.replies.Contents()
        && c.book.called == Callable(c.book.settled)
    ensures Matched(c.book.settled, c.book.received) && (c.freed ==> c.replies.Contents() == [])
  {
    hide Matched, Owners, Callbacks, Linked, Callable, Follows;
    c := new AsyncContext();
    states := [START];
    for i := 0 to |events|
      invariant fresh(c) && fresh(c.replies) && c.Sound()
      invariant IsRun(states, events[..i]) && c.Now() == states[i]
    {
      var taken := c.Step(events[i]);
      assert events[..i + 1] == events[..i] + [events[i]];
      states := states + [c.Now()];
    }
    assert events[..|events|] == events;
  }
}

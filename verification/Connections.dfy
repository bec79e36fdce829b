/** Connection accounting and listener wake-up (src/main.c): atomic counters moved by any number of threads, and
    worker loops that stop their TCP listeners at the limit until they are notified. */
module Connections {

  type Id = nat

  /** A unit of a counter: not taken, taken within the limit, or taken beyond it and to be given back. */
  datatype Share = None | Held | Excess

  /** A connection attempt (on_accept, on_http3_accept), a connection, or one being closed. */
  datatype Phase = Deciding | Live | Closing

  datatype Conn = Conn(isQuic: bool, phase: Phase, conn: Share, quic: Share)

  /** A worker at the top of its loop, past reading the count in update_listener_state, inside the event loop
      where it may block, or running callbacks. */
  datatype Point = AtTop | HasRead(full: bool) | Polling | Running

  datatype Thread = Thread(at: Point, listening: bool, mail: nat)

  /** `notifiers` are the calls of notify_all_threads under way, with the thread each comes to next. */
  datatype State = State(num: int, numQuic: int, conns: map<Id, Conn>, threads: seq<Thread>, notifiers: map<Id, nat>)

  datatype Config = Config(max: int, maxQuic: int)

  datatype Action =
    | Enter(id: Id, isQuic: bool) | EnterQuic(id: Id) | Establish(id: Id) | Abandon(id: Id) | Close(id: Id)
    | Leave(id: Id, notifier: Id) | LeaveQuic(id: Id) | Forget(id: Id)
    | Notify(notifier: Id) | NotifyDone(notifier: Id)
    | ReadCount(t: nat) | Switch(t: nat) | Wake(t: nat) | Consume(t: nat) | LoopBack(t: nat)

  ghost predicate Init(s: State) {
    && s.num == 0 && s.numQuic == 0 && s.conns == map[] && s.notifiers == map[]
    && forall t :: 0 <= t < |s.threads| ==> s.threads[t] == Thread(AtTop, false, 0)
  }

  /** The units taken so far suffice for the connection to be served. */
  predicate Admitted(c: Conn) { c.phase.Deciding? && c.conn.Held? && (c.isQuic ==> c.quic.Held?) }

  // ---- Steps on the counters ----------------------------------------------------------------------------

  /** num_connections(1) and the test of its result. */
  function Entered(num: int, max: int, isQuic: bool): Conn {
    if num >= max then Conn(isQuic, Closing, Excess, None) else Conn(isQuic, Deciding, Held, None)
  }

  /** num_quic_connections(1) and the test of its result. */
  function EnteredQuic(numQuic: int, maxQuic: int, c: Conn): Conn {
    if numQuic >= maxQuic then c.(phase := Closing, quic := Excess) else c.(quic := Held)
  }

  /** The change a step makes to one connection. */
  ghost predicate ConnStep(cfg: Config, s: State, a: Action, c: Conn, c': Conn) {
    match a
    case EnterQuic(_) => c.phase.Deciding? && c.isQuic && c.quic.None? && c' == EnteredQuic(s.numQuic, cfg.maxQuic, c)
    case Establish(_) => Admitted(c) && c' == c.(phase := Live)
    case Abandon(_) => Admitted(c) && c' == c.(phase := Closing)
    case Close(_) => c.phase.Live? && c' == c.(phase := Closing)
    case Leave(_, _) => c.phase.Closing? && !c.conn.None? && c' == c.(conn := None)
    case LeaveQuic(_) => c.phase.Closing? && c.conn.None? && !c.quic.None? && c' == c.(quic := None)
    case _ => false
  }

  predicate OfConn(a: Action) { a.EnterQuic? || a.Establish? || a.Abandon? || a.Close? || a.Leave? || a.LeaveQuic? }

  /** num_connections(-1): the decrement that leaves the limit starts a notification of all threads. */
  predicate Wakes(cfg: Config, s: State, a: Action) { a.Leave? && s.num == cfg.max }

  ghost predicate CounterStep(cfg: Config, s: State, a: Action, s': State) {
    if a.Enter? then
      a.id !in s.conns && s' == s.(num := s.num + 1, conns := s.conns[a.id := Entered(s.num, cfg.max, a.isQuic)])
    else if a.Forget? then
      && a.id in s.conns && s.conns[a.id].phase.Closing? && s.conns[a.id].conn.None? && s.conns[a.id].quic.None?
      && s' == s.(conns := s.conns - {a.id})
    else
      && OfConn(a) && a.id in s.conns && a.id in s'.conns && ConnStep(cfg, s, a, s.conns[a.id], s'.conns[a.id])
      && (Wakes(cfg, s, a) ==> a.notifier !in s.notifiers)
      && s' == s.(num := if a.Leave? then s.num - 1 else s.num,
                  numQuic := if a.LeaveQuic? then s.numQuic - 1 else if a.EnterQuic? then s.numQuic + 1 else s.numQuic,
                  conns := s.conns[a.id := s'.conns[a.id]],
                  notifiers := if Wakes(cfg, s, a) then s.notifiers[a.notifier := 0] else s.notifiers)
  }

  // ---- Steps of notifiers and workers --------------------------------------------------------------------

  ghost predicate NotifyStep(s: State, a: Action, s': State) {
    match a
    case Notify(n) =>
      && n in s.notifiers && s.notifiers[n] < |s.threads|
      && var t := s.notifiers[n];
         s' == s.(threads := s.threads[t := s.threads[t].(mail := s.threads[t].mail + 1)],
             notifiers := s.notifiers[n := t + 1])
    case NotifyDone(n) => n in s.notifiers && s.notifiers[n] == |s.threads| && s' == s.(notifiers := s.notifiers - {n})
    case _ => false
  }

  ghost predicate ThreadStep(cfg: Config, s: State, a: Action, w: Thread, w': Thread) {
    match a
    case ReadCount(_) => w.at.AtTop? && w' == w.(at := HasRead(s.num >= cfg.max))
    case Switch(_) => w.at.HasRead? && w' == w.(at := Polling, listening := !w.at.full)
    case Wake(_) => w.at.Polling? && w' == w.(at := Running)
    case Consume(_) => w.at.Running? && w' == w.(mail := 0)
    case LoopBack(_) => w.at.Running? && w' == w.(at := AtTop)
    case _ => false
  }

  predicate OfThread(a: Action) { a.ReadCount? || a.Switch? || a.Wake? || a.Consume? || a.LoopBack? }

  ghost predicate Next(cfg: Config, s: State, a: Action, s': State) {
    if OfThread(a) then
      && a.t < |s.threads| == |s'.threads| && ThreadStep(cfg, s, a, s.threads[a.t], s'.threads[a.t])
      && s' == s.(threads := s.threads[a.t := s'.threads[a.t]])
    else if a.Notify? || a.NotifyDone? then NotifyStep(s, a, s')
    else CounterStep(cfg, s, a, s')
  }

  // ---- Counting -----------------------------------------------------------------------------------------

  ghost function Taking(m: map<Id, Conn>): set<Id> { set id | id in m && !m[id].conn.None? }
  ghost function Holding(m: map<Id, Conn>): set<Id> { set id | id in m && m[id].conn.Held? }
  ghost function TakingQuic(m: map<Id, Conn>): set<Id> { set id | id in m && !m[id].quic.None? }
  ghost function HoldingQuic(m: map<Id, Conn>): set<Id> { set id | id in m && m[id].quic.Held? }

  ghost function With(s: set<Id>, id: Id, b: bool): set<Id> { if b then s + {id} else s - {id} }

  lemma Moves(m: map<Id, Conn>, id: Id, c: Conn)
    ensures Taking(m[id := c]) == With(Taking(m), id, !c.conn.None?)
    ensures Holding(m[id := c]) == With(Holding(m), id, c.conn.Held?)
    ensures TakingQuic(m[id := c]) == With(TakingQuic(m), id, !c.quic.None?)
    ensures HoldingQuic(m[id := c]) == With(HoldingQuic(m), id, c.quic.Held?)
  {
  }

  lemma WithSize(s: set<Id>, id: Id, b: bool)
    ensures |With(s, id, b)| == |s| + (if b then 1 else 0) - (if id in s then 1 else 0)
  {
    if id in s { assert |s - {id}| + 1 == |s|; }
    if b && id in s { assert s + {id} == s; }
    if !b && id !in s { assert s - {id} == s; }
  }

  lemma SubsetSize(a: set<Id>, b: set<Id>)
    requires a <= b
    ensures |a| <= |b|
  {
    if a != {} {
      var x :| x in a;
      SubsetSize(a - {x}, b - {x});
    }
  }

  /** The units within a limit never exceed it. */
  ghost predicate Within(held: set<Id>, max: int) { held == {} || |held| <= max }

  ghost predicate ConnOk(c: Conn) {
    && (!c.phase.Closing? ==> c.conn.Held?) && (!c.isQuic ==> c.quic.None?)
    && (c.phase.Live? && c.isQuic ==> c.quic.Held?) && !(c.phase.Deciding? && c.quic.Excess?)
  }

  ghost predicate Counts(cfg: Config, s: State) {
    && s.num == |Taking(s.conns)| && Within(Holding(s.conns), cfg.max)
    && s.numQuic == |TakingQuic(s.conns)| && Within(HoldingQuic(s.conns), cfg.maxQuic)
    && forall id :: id in s.conns ==> ConnOk(s.conns[id])
  }

  /** A counter that equals the units taken hands out no unit beyond the limit. */
  lemma TakeOne(num: int, max: int, taking: set<Id>, held: set<Id>, id: Id, b: bool)
    requires num == |taking| && held <= taking && Within(held, max) && id !in taking && (b <==> num < max)
    ensures num + 1 == |With(taking, id, true)| && Within(With(held, id, b), max)
  {
    WithSize(taking, id, true);
    WithSize(held, id, b);
    SubsetSize(held, taking);
  }

  lemma GiveBack(num: int, max: int, taking: set<Id>, held: set<Id>, id: Id)
    requires num == |taking| && Within(held, max) && id in taking
    ensures num - 1 == |With(taking, id, false)| && Within(With(held, id, false), max)
  {
    WithSize(taking, id, false);
    WithSize(held, id, false);
  }

  lemma Keep(taking: set<Id>, held: set<Id>, id: Id, b: bool, h: bool)
    requires (b <==> id in taking) && (h <==> id in held)
    ensures With(taking, id, b) == taking && With(held, id, h) == held
  {
  }

  lemma CountsKept(cfg: Config, s: State, a: Action, s': State)
    requires Counts(cfg, s) && CounterStep(cfg, s, a, s')
    ensures Counts(cfg, s')
  {
    hide With, Within;
    if a.Forget? {
      assert Taking(s'.conns) == Taking(s.conns) && Holding(s'.conns) == Holding(s.conns);
      assert TakingQuic(s'.conns) == TakingQuic(s.conns) && HoldingQuic(s'.conns) == HoldingQuic(s.conns);
    } else {
      Moves(s.conns, a.id, s'.conns[a.id]);
      CountsMoved(cfg, s, a, s'.conns[a.id], s');
    }
  }

  lemma CountsMoved(cfg: Config, s: State, a: Action, c: Conn, s': State)
    requires Counts(cfg, s) && CounterStep(cfg, s, a, s') && !a.Forget? && a.id in s'.conns && c == s'.conns[a.id]
    ensures s'.num == |With(Taking(s.conns), a.id, !c.conn.None?)|
        && Within(With(Holding(s.conns), a.id, c.conn.Held?), cfg.max)
    ensures s'.numQuic == |With(TakingQuic(s.conns), a.id, !c.quic.None?)|
        && Within(With(HoldingQuic(s.conns), a.id, c.quic.Held?), cfg.maxQuic)
    ensures ConnOk(c)
  {
    hide With, Within;
    var m := s.conns;
    if a.Enter? {
      TakeOne(s.num, cfg.max, Taking(m), Holding(m), a.id, c.conn.Held?);
    } else if a.Leave? {
      GiveBack(s.num, cfg.max, Taking(m), Holding(m), a.id);
    } else {
      Keep(Taking(m), Holding(m), a.id, !c.conn.None?, c.conn.Held?);
    }
    if a.EnterQuic? {
      TakeOne(s.numQuic, cfg.maxQuic, TakingQuic(m), HoldingQuic(m), a.id, c.quic.Held?);
    } else if a.LeaveQuic? {
      GiveBack(s.numQuic, cfg.maxQuic, TakingQuic(m), HoldingQuic(m), a.id);
    } else {
      Keep(TakingQuic(m), HoldingQuic(m), a.id, !c.quic.None?, c.quic.Held?);
    }
  }

  // ---- No lost wake-up ----------------------------------------------------------------------------------

  /** The worker has decided to wait with its listeners stopped and will not look at the count before it wakes. */
  predicate Stopped(w: Thread) { w.at == HasRead(true) || (w.at.Polling? && !w.listening) }

  ghost predicate Coming(notifiers: map<Id, nat>, t: nat) { exists n :: n in notifiers && notifiers[n] <= t }

  ghost predicate Reached(cfg: Config, s: State, t: nat)
    requires t < |s.threads|
  {
    Stopped(s.threads[t]) && s.num < cfg.max ==> s.threads[t].mail > 0 || Coming(s.notifiers, t)
  }

  ghost predicate Invariant(cfg: Config, s: State) {
    Counts(cfg, s) && forall t :: 0 <= t < |s.threads| ==> Reached(cfg, s, t)
  }

  lemma ThreadReaches(cfg: Config, s: State, a: Action, s': State, t: nat)
    requires OfThread(a) && Next(cfg, s, a, s') && t < |s.threads| && Reached(cfg, s, t)
    ensures Reached(cfg, s', t)
  {
  }

  lemma CounterReaches(cfg: Config, s: State, a: Action, s': State, t: nat)
    requires CounterStep(cfg, s, a, s') && t < |s.threads| && Reached(cfg, s, t)
    ensures Reached(cfg, s', t)
  {
    if OfConn(a) && Wakes(cfg, s, a) {
      assert a.notifier in s'.notifiers && s'.notifiers[a.notifier] <= t;
    }
  }

  lemma NotifyReaches(cfg: Config, s: State, a: Action, s': State, t: nat)
    requires NotifyStep(s, a, s') && t < |s.threads| && Reached(cfg, s, t)
    ensures t < |s'.threads| && Reached(cfg, s', t)
  {
    if Stopped(s'.threads[t]) && s'.num < cfg.max && s'.threads[t].mail == 0 {
      var k :| k in s.notifiers && s.notifiers[k] <= t;
      assert k in s'.notifiers && s'.notifiers[k] <= t;
    }
  }

  lemma NextKeeps(cfg: Config, s: State, a: Action, s': State)
    requires Invariant(cfg, s) && Next(cfg, s, a, s')
    ensures Invariant(cfg, s')
  {
    hide Counts, CounterStep, NotifyStep, Coming;
    if OfThread(a) {
      CountsSame(cfg, s, s');
      forall t | 0 <= t < |s'.threads| ensures Reached(cfg, s', t) { ThreadReaches(cfg, s, a, s', t); }
    } else if a.Notify? || a.NotifyDone? {
      NotifyFrame(s, a, s');
      CountsSame(cfg, s, s');
      forall t | 0 <= t < |s'.threads| ensures Reached(cfg, s', t) { NotifyReaches(cfg, s, a, s', t); }
    } else {
      CounterFrame(cfg, s, a, s');
      CountsKept(cfg, s, a, s');
      forall t | 0 <= t < |s'.threads| ensures Reached(cfg, s', t) { CounterReaches(cfg, s, a, s', t); }
    }
  }

  lemma CountsSame(cfg: Config, s: State, s': State)
    requires Counts(cfg, s) && s.num == s'.num && s.numQuic == s'.numQuic && s.conns == s'.conns
    ensures Counts(cfg, s')
  {
  }

  lemma NotifyFrame(s: State, a: Action, s': State)
    requires NotifyStep(s, a, s')
    ensures s.num == s'.num && s.numQuic == s'.numQuic && s.conns == s'.conns && |s.threads| == |s'.threads|
  {
  }

  lemma CounterFrame(cfg: Config, s: State, a: Action, s': State)
    requires CounterStep(cfg, s, a, s')
    ensures s.threads == s'.threads
  {
  }

  ghost predicate Execution(cfg: Config, ss: seq<State>, acts: seq<Action>) {
    && |ss| == |acts| + 1 && Init(ss[0])
    && forall k :: 0 <= k < |acts| ==> Next(cfg, ss[k], acts[k], ss[k + 1])
  }

  lemma {:induction false} ExecutionKeeps(cfg: Config, ss: seq<State>, acts: seq<Action>, k: nat)
    requires Execution(cfg, ss, acts) && k < |ss|
    ensures Invariant(cfg, ss[k])
  {
    hide Next;
    if k == 0 {
      assert Taking(ss[0].conns) == {} && TakingQuic(ss[0].conns) == {};
    } else {
      ExecutionKeeps(cfg, ss, acts, k - 1);
      NextKeeps(cfg, ss[k - 1], acts[k - 1], ss[k]);
    }
  }

  // ---- What holds in every run ----------------------------------------------------------------------------

  ghost function LiveConns(m: map<Id, Conn>): set<Id> { set id | id in m && m[id].phase.Live? }
  ghost function LiveQuic(m: map<Id, Conn>): set<Id> { set id | id in m && m[id].phase.Live? && m[id].isQuic }
  ghost function Undecided(m: map<Id, Conn>): set<Id> { set id | id in m && !m[id].phase.Live? && !m[id].conn.None? }

  /** The counter is the number of live connections and of units reserved or being given back; the live ones
      stay within the limits, TCP and QUIC together and QUIC alone. */
  lemma LimitsHold(cfg: Config, ss: seq<State>, acts: seq<Action>, k: nat)
    requires Execution(cfg, ss, acts) && k < |ss|
    ensures ss[k].num == |LiveConns(ss[k].conns)| + |Undecided(ss[k].conns)|
    ensures Within(LiveConns(ss[k].conns), cfg.max) && Within(LiveQuic(ss[k].conns), cfg.maxQuic)
  {
    ExecutionKeeps(cfg, ss, acts, k);
    var m := ss[k].conns;
    assert Taking(m) == LiveConns(m) + Undecided(m);
    assert LiveConns(m) !! Undecided(m);
    assert LiveConns(m) <= Holding(m);
    SubsetSize(LiveConns(m), Holding(m));
    assert LiveQuic(m) <= HoldingQuic(m);
    SubsetSize(LiveQuic(m), HoldingQuic(m));
  }

  /** No worker blocks with its listeners stopped below the limit, unless it has mail or a notifier is coming. */
  lemma NoLostWakeup(cfg: Config, ss: seq<State>, acts: seq<Action>, k: nat, t: nat)
    requires Execution(cfg, ss, acts) && k < |ss| && t < |ss[k].threads|
    requires ss[k].threads[t].at.Polling? && !ss[k].threads[t].listening && ss[k].num < cfg.max
    ensures ss[k].threads[t].mail > 0 || exists n :: n in ss[k].notifiers && ss[k].notifiers[n] <= t
  {
    ExecutionKeeps(cfg, ss, acts, k);
    assert Reached(cfg, ss[k], t);
  }
}

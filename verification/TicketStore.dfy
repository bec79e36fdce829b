/** Nodes sharing ticket keys through memcached (src/ssl.c): each reads the stored vector, updates its copy and
    either writes it back with compare-and-swap, to read again, or installs it. */
module TicketStore {
  import opened Options
  import opened Tickets

  /** A vector written to the store, and the sorted one it was computed from; the first of a store that
      holds nothing is computed from the empty vector. */
  datatype Write = Write(base: Vector, now: nat, value: Vector)

  /** Where a node is in ticket_memcached_update_tickets: past its read it holds the status (`found`), the
      version for compare-and-swap, and the sorted vector before and after update_tickets. */
  datatype Node = Idle | Dead | Holding(found: bool, cas: nat, now: nat, base: Vector, tickets: Vector, altered: bool)

  datatype Install = Install(tickets: Vector, now: nat)

  /** The store, all it has held, and the nodes. */
  datatype State = State(value: Option<Vector>, cas: nat, log: seq<Write>, nodes: map<nat, Node>,
                         installs: map<nat, Install>)

  /** One step of node `id`, or the expiry of the stored value. */
  datatype Action =
    | Get(id: nat, now: nat)
    | Put(id: nat)
    | Swap(id: nat)
    | GiveUp(id: nat)
    | Expire

  predicate Init(s: State) {
    s.value == None && s.cas == 0 && s.log == [] && s.installs == map[]
        && forall id :: id in s.nodes ==> s.nodes[id] == Idle
  }

  /** What qsort with ticket_sort_compare gives, as far as the order of start times goes. */
  ghost predicate SortOf(v: Vector, w: Vector) { multiset(v) == multiset(w) && Sorted(w) }

  /** What the node that read `base` holds after update_tickets; 256 distinct first bytes stop it. */
  ghost predicate AfterUpdate(found: bool, cas: nat, now: nat, base: Vector, lifetime: nat, n: Node)
    requires lifetime > 0
  {
    if |Kept(base, now)| >= 256 then n == Dead
    else n.Holding? && n == Holding(found, cas, now, base, n.tickets, n.altered) &&
         Updates(base, now, lifetime, n.tickets, n.altered)
  }

  ghost predicate Reads(s: State, now: nat, lifetime: nat, n: Node)
    requires lifetime > 0
  {
    if s.value.None? then AfterUpdate(false, 0, now, [], lifetime, n)
    else exists base :: SortOf(s.value.value, base) && AfterUpdate(true, s.cas, now, base, lifetime, n)
  }

  /** The store takes an addition if it holds nothing, a compare-and-swap if it still holds what was read. */
  predicate Accepts(s: State, n: Node)
    requires n.Holding?
  {
    if n.found then s.value.Some? && s.cas == n.cas else s.value.None?
  }

  ghost predicate Next(s: State, a: Action, s': State, lifetime: nat)
    requires lifetime > 0
  {
    match a
    case Get(id, now) =>
      && id in s.nodes && s.nodes[id].Idle?
      && exists n :: Reads(s, now, lifetime, n) && s' == s.(nodes := s.nodes[id := n])
    case Put(id) =>
      && id in s.nodes && s.nodes[id].Holding? && s.nodes[id].altered
      && var n := s.nodes[id];
         s' == if Accepts(s, n)
               then s.(value := Some(n.tickets), cas := s.cas + 1, log := s.log + [Write(n.base, n.now, n.tickets)],
                       nodes := s.nodes[id := Idle])
               else s.(nodes := s.nodes[id := Idle])
    case Swap(id) =>
      && id in s.nodes && s.nodes[id].Holding? && !s.nodes[id].altered
      && s' == s.(installs := s.installs[id := Install(s.nodes[id].tickets, s.nodes[id].now)],
          nodes := s.nodes[id := Idle])
    case GiveUp(id) => id in s.nodes && s.nodes[id].Holding? && s' == s.(nodes := s.nodes[id := Idle])
    case Expire => s' == s.(value := None)
  }

  // ---- Permutations ---------------------------------------------------------------------------------

  lemma {:induction false} DistinctSize(v: Vector)
    ensures Distinct(v) <==> |Firsts(v)| == |v|
  {
    if v != [] {
      DistinctSize(v[1..]);
      FirstsSize(v[1..]);
      InFirsts(v[1..], v[0].first);
    }
  }

  lemma {:induction false} FirstOf(v: Vector, b: int) returns (t: Ticket)
    requires b in Firsts(v)
    ensures t in v && t.first == b
  {
    t := v[0];
    if t.first != b { t := FirstOf(v[1..], b); }
  }

  lemma {:induction false} ToFirst(v: Vector, t: Ticket)
    requires t in v
    ensures t.first in Firsts(v)
  {
    if t != v[0] { ToFirst(v[1..], t); }
  }

  lemma SameFirsts(v: Vector, w: Vector, b: int)
    requires multiset(v) == multiset(w) && b in Firsts(v)
    ensures b in Firsts(w)
  {
    var t := FirstOf(v, b);
    assert t in multiset(w);
    ToFirst(w, t);
  }

  lemma DistinctPermuted(v: Vector, w: Vector)
    requires Distinct(v) && multiset(v) == multiset(w)
    ensures Distinct(w)
  {
    forall b ensures b in Firsts(v) <==> b in Firsts(w) {
      if b in Firsts(v) { SameFirsts(v, w, b); }
      if b in Firsts(w) { SameFirsts(w, v, b); }
    }
    assert Firsts(v) == Firsts(w);
    assert |v| == |multiset(v)| == |multiset(w)| == |w|;
    DistinctSize(v);
    DistinctSize(w);
  }

  // ---- Safety -----------------------------------------------------------------------------------------

  /** Write number `i` updated, in sorted order, the value written before it, or else nothing was stored. */
  ghost predicate Linked(log: seq<Write>, i: nat, lifetime: nat)
    requires i < |log| && lifetime > 0
  {
    && Updates(log[i].base, log[i].now, lifetime, log[i].value, true)
    && (log[i].base == [] || (i > 0 && SortOf(log[i - 1].value, log[i].base)))
  }

  ghost predicate NodeOk(log: seq<Write>, n: Node, lifetime: nat)
    requires lifetime > 0
  {
    n.Holding? ==>
      && Updates(n.base, n.now, lifetime, n.tickets, n.altered)
      && if n.found then 0 < n.cas <= |log| && SortOf(log[n.cas - 1].value, n.base) else n.base == []
  }

  /** An installed vector is, up to order, a value the store held; its first bytes are distinct and it has a
      key for the time of the read. */
  ghost predicate Sound(log: seq<Write>, w: Install) {
    && Distinct(w.tickets) && EncKey(w.tickets, w.now).Some?
    && exists i :: 0 <= i < |log| && SortOf(log[i].value, w.tickets)
  }

  ghost predicate Invariant(s: State, lifetime: nat)
    requires lifetime > 0
  {
    && s.cas == |s.log|
    && (s.value.Some? ==> |s.log| > 0 && s.value.value == s.log[|s.log| - 1].value)
    && (forall i :: 0 <= i < |s.log| ==> Linked(s.log, i, lifetime) && Distinct(s.log[i].value))
    && (forall id :: id in s.nodes ==> NodeOk(s.log, s.nodes[id], lifetime))
    && (forall id :: id in s.installs ==> Sound(s.log, s.installs[id]))
  }

  lemma GetKeeps(s: State, now: nat, n: Node, lifetime: nat)
    requires lifetime > 0 && Invariant(s, lifetime) && Reads(s, now, lifetime, n)
    ensures NodeOk(s.log, n, lifetime)
  {
  }

  /** An unaltered vector is the one that was read. */
  lemma Unaltered(s: State, n: Node, lifetime: nat)
    requires lifetime > 0 && Invariant(s, lifetime) && NodeOk(s.log, n, lifetime) && n.Holding? && !n.altered
    ensures Sound(s.log, Install(n.tickets, n.now))
  {
    UpdateGives(n.base, n.now, lifetime, n.tickets, n.altered);
    if n.found {
      DistinctPermuted(s.log[n.cas - 1].value, n.base);
      KeptDistinct(n.base);
    }
  }

  lemma NodeLater(log: seq<Write>, x: Write, n: Node, lifetime: nat)
    requires lifetime > 0 && NodeOk(log, n, lifetime)
    ensures NodeOk(log + [x], n, lifetime)
  {
  }

  lemma SoundLater(log: seq<Write>, x: Write, w: Install)
    requires Sound(log, w)
    ensures Sound(log + [x], w)
  {
    var i :| 0 <= i < |log| && SortOf(log[i].value, w.tickets);
    assert (log + [x])[i] == log[i];
  }

  lemma LinkedLater(log: seq<Write>, x: Write, i: nat, lifetime: nat)
    requires lifetime > 0 && i < |log| && Linked(log, i, lifetime)
    ensures Linked(log + [x], i, lifetime)
  {
  }

  lemma PutKeeps(s: State, id: nat, s': State, lifetime: nat)
    requires lifetime > 0 && Invariant(s, lifetime) && Next(s, Put(id), s', lifetime)
    ensures Invariant(s', lifetime)
  {
    hide Linked, NodeOk, Sound, Distinct, Updates, SortOf;
    var n := s.nodes[id];
    if Accepts(s, n) {
      var x := Write(n.base, n.now, n.tickets);
      PutLinks(s, n, lifetime);
      forall i | 0 <= i < |s'.log| ensures Linked(s'.log, i, lifetime) && Distinct(s'.log[i].value) {
        if i < |s.log| { LinkedLater(s.log, x, i, lifetime); }
      }
      forall k | k in s'.nodes ensures NodeOk(s'.log, s'.nodes[k], lifetime) {
        if k != id { NodeLater(s.log, x, s.nodes[k], lifetime); } else { IdleOk(s'.log, lifetime); }
      }
      forall k | k in s'.installs ensures Sound(s'.log, s'.installs[k]) {
        SoundLater(s.log, x, s.installs[k]);
      }
    } else {
      IdleOk(s.log, lifetime);
    }
  }

  lemma IdleOk(log: seq<Write>, lifetime: nat)
    requires lifetime > 0
    ensures NodeOk(log, Idle, lifetime) && NodeOk(log, Dead, lifetime)
  {
  }

  lemma PutLinks(s: State, n: Node, lifetime: nat)
    requires lifetime > 0 && Invariant(s, lifetime) && NodeOk(s.log, n, lifetime) && n.Holding? && n.altered
        && Accepts(s, n)
    ensures Linked(s.log + [Write(n.base, n.now, n.tickets)], |s.log|, lifetime) && Distinct(n.tickets)
  {
    hide Updates, Distinct, SortOf;
    UpdateGives(n.base, n.now, lifetime, n.tickets, n.altered);
  }

  lemma NextKeeps(s: State, a: Action, s': State, lifetime: nat)
    requires lifetime > 0 && Invariant(s, lifetime) && Next(s, a, s', lifetime)
    ensures Invariant(s', lifetime)
  {
    hide Linked, NodeOk, Sound, Distinct, Updates, SortOf, Reads;
    IdleOk(s.log, lifetime);
    match a
    case Get(id, now) =>
      var n :| Reads(s, now, lifetime, n) && s' == s.(nodes := s.nodes[id := n]);
      GetKeeps(s, now, n, lifetime);
    case Put(id) => PutKeeps(s, id, s', lifetime);
    case Swap(id) => Unaltered(s, s.nodes[id], lifetime);
    case GiveUp(id) =>
    case Expire =>
  }

  /** A run: states joined by steps, from a store that holds nothing. */
  ghost predicate Execution(ss: seq<State>, acts: seq<Action>, lifetime: nat)
    requires lifetime > 0
  {
    && |ss| == |acts| + 1 && Init(ss[0])
    && forall k :: 0 <= k < |acts| ==> Next(ss[k], acts[k], ss[k + 1], lifetime)
  }

  lemma {:induction false} ExecutionKeeps(ss: seq<State>, acts: seq<Action>, lifetime: nat, k: nat)
    requires lifetime > 0 && Execution(ss, acts, lifetime) && k < |ss|
    ensures Invariant(ss[k], lifetime)
  {
    hide Next;
    if k > 0 {
      ExecutionKeeps(ss, acts, lifetime, k - 1);
      NextKeeps(ss[k - 1], acts[k - 1], ss[k], lifetime);
    }
  }

  /** Whatever the interleaving: what a node has installed is, up to order, a value the store held, with
      distinct first bytes and a key for the time of the read; and no update was lost, as every value written
      was computed from the one it replaced. */
  lemma SharedKeysSafe(ss: seq<State>, acts: seq<Action>, lifetime: nat, k: nat)
    requires lifetime > 0 && Execution(ss, acts, lifetime) && k < |ss|
    ensures forall id :: id in ss[k].installs ==> Sound(ss[k].log, ss[k].installs[id])
    ensures forall i :: 0 <= i < |ss[k].log| ==> Linked(ss[k].log, i, lifetime)
  {
    ExecutionKeeps(ss, acts, lifetime, k);
  }
}

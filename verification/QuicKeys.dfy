/** The per-thread cache of QUIC keys (src/ssl.c): one thread updates the ticket vector under a write lock and
    then counts a generation up; any number of threads copy the vector when the count has moved. */
module QuicKeys {
  import opened Options
  import opened Tickets

  type Id = nat

  datatype Keyset = Keyset(name: Byte, secret: nat)

  function KeysetOf(t: Ticket): Keyset { Keyset(t.first, t.key) }

  function Keysets(v: Vector): (k: seq<Keyset>)
    ensures |k| == |v|
  {
    if v == [] then [] else Keysets(v[..|v| - 1]) + [KeysetOf(v[|v| - 1])]
  }

  /** register_session_tickets: under the write lock, past it with the count to be moved, or at the barrier. */
  datatype Updater = Resting | Writing | Installed | Released | Bumped | Blocked

  /** A thread before and at the startup barrier, outside update_quic_keys, and at the points of its loop;
      `g` is the generation just read. */
  datatype Point = Starting | Waiting | Outside | Checking | Refreshing(g: nat) | Copying(g: nat) | Copied(g: nat)

  /** `version` tells which install the keys were copied from. */
  datatype Reader = Reader(at: Point, generation: int, keys: seq<Keyset>, version: nat)

  /** `versions` lists what has been installed, the empty vector first; `absent` holds who has yet to reach the
      barrier, `barrier` is its count. */
  datatype State = State(tickets: Vector, generation: nat, updater: Updater, barrierSet: bool, barrier: nat,
      absent: set<Id>,
                         versions: seq<Vector>, readers: map<Id, Reader>)

  datatype Action =
    | WriteLock | Scribble(v: Vector) | Install(v: Vector) | WriteUnlock | Bump | UpdaterArrives | UpdaterPasses
    | Arrive(id: Id) | Pass(id: Id) | Call(id: Id) | ReadGeneration(id: Id) | ReadLock(id: Id) | CopyOne(id: Id)
    | ReadUnlock(id: Id) | StoreGeneration(id: Id)

  const UPDATER: Id := 0

  ghost predicate Init(s: State) {
    && s.tickets == [] && s.generation == 0 && s.updater == Resting && s.versions == [[]] && s.barrierSet
    && UPDATER !in s.readers && s.absent == s.readers.Keys + {UPDATER} && s.barrier == |s.absent|
    && forall id :: id in s.readers ==> s.readers[id] == Reader(Starting, -1, [], 0)
  }

  predicate WriteHeld(s: State) { s.updater.Writing? || s.updater.Installed? }

  predicate ReadHeld(s: State) { exists id :: id in s.readers && s.readers[id].at.Copying? }

  /** What update_tickets and the check after it let be installed. */
  ghost predicate Installable(v: Vector) { v != [] && Distinct(v) }

  ghost predicate UpdaterStep(s: State, a: Action, s': State) {
    match a
    case WriteLock => s.updater.Resting? && !ReadHeld(s) && s' == s.(updater := Writing)
    case Scribble(v) => s.updater.Writing? && s' == s.(tickets := v)
    case Install(v) => s.updater.Writing? && Installable(v) && s' == s.(tickets := v, versions := s.versions + [v],
        updater := Installed)
    case WriteUnlock => s.updater.Installed? && s' == s.(updater := Released)
    case Bump =>
      s.updater.Released? &&
      s' == s.(generation := s.generation + 1, updater := if s.barrierSet then Bumped else Resting)
    case UpdaterArrives => s.updater.Bumped? && s.barrier > 0
        && s' == s.(barrier := s.barrier - 1, absent := s.absent - {UPDATER}, updater := Blocked)
    case UpdaterPasses => s.updater.Blocked? && s.barrier == 0 && s' == s.(barrierSet := false, updater := Resting)
    case _ => false
  }

  /** One step of thread `id`, now in `r`; copying is one entry at a time. */
  ghost predicate ReaderStep(s: State, a: Action, id: Id, r: Reader, r': Reader)
    requires |s.versions| > 0
  {
    match a
    case Arrive(_) => r.at.Starting? && s.barrier > 0 && r' == r.(at := Waiting)
    case Pass(_) => r.at.Waiting? && s.barrier == 0 && r' == r.(at := Outside)
    case Call(_) => r.at.Outside? && r' == r.(at := Checking)
    case ReadGeneration(_) =>
      && r.at.Checking?
      && r' == if s.generation == r.generation then r.(at := Outside)
          else r.(at := Refreshing(s.generation), keys := [])
    case ReadLock(_) => r.at.Refreshing? && !WriteHeld(s) && r' == r.(at := Copying(r.at.g),
        version := |s.versions| - 1)
    case CopyOne(_) => r.at.Copying? && |r.keys| < |s.tickets|
        && r' == r.(keys := r.keys + [KeysetOf(s.tickets[|r.keys|])])
    case ReadUnlock(_) => r.at.Copying? && |r.keys| == |s.tickets| && r' == r.(at := Copied(r.at.g))
    case StoreGeneration(_) => r.at.Copied? && r' == r.(generation := r.at.g, at := Checking)
    case _ => false
  }

  predicate OfReader(a: Action) {
    !(a.WriteLock? || a.Scribble? || a.Install? || a.WriteUnlock? || a.Bump? || a.UpdaterArrives? || a.UpdaterPasses?)
  }

  ghost predicate Next(s: State, a: Action, s': State)
    requires |s.versions| > 0
  {
    if OfReader(a) then
      && a.id in s.readers && a.id in s'.readers && ReaderStep(s, a, a.id, s.readers[a.id], s'.readers[a.id])
      && var t := s.(readers := s.readers[a.id := s'.readers[a.id]]);
         s' == if a.Arrive? then t.(barrier := s.barrier - 1, absent := s.absent - {a.id}) else t
    else UpdaterStep(s, a, s')
  }

  // ---- The invariant ----------------------------------------------------------------------------------

  /** The keys are a whole version, no older than generation `g`. */
  ghost predicate Whole(versions: seq<Vector>, r: Reader, g: int) {
    0 < r.version < |versions| && g <= r.version && r.keys == Keysets(versions[r.version])
  }

  ghost predicate Fresh(versions: seq<Vector>, generation: nat, r: Reader) {
    (r.generation == -1 && r.keys == []) || (0 < r.generation <= generation && Whole(versions, r, r.generation))
  }

  ghost predicate ReaderOk(s: State, r: Reader) {
    match r.at
    case Starting => r.generation == -1 && r.keys == []
    case Waiting => r.generation == -1 && r.keys == []
    case Outside => Fresh(s.versions, s.generation, r) && (r.generation > 0 ==> r.version <= r.generation + 1)
    case Checking => Fresh(s.versions, s.generation, r)
    case Refreshing(g) => 0 < g <= s.generation && r.keys == []
    case Copying(g) =>
      && 0 < g <= s.generation && !WriteHeld(s) && r.version == |s.versions| - 1
      && |r.keys| <= |s.tickets| && r.keys == Keysets(s.tickets[..|r.keys|])
    case Copied(g) => 0 < g <= s.generation && Whole(s.versions, r, g)
  }

  /** The installs and the generation count differ only while the updater is between the two. */
  ghost predicate Counted(s: State) {
    |s.versions| - 1 == if s.updater.Installed? || s.updater.Released? then s.generation + 1 else s.generation
  }

  ghost predicate BarrierOk(s: State) {
    && s.barrier == |s.absent|
    && (s.generation == 0 ==> UPDATER in s.absent)
    && (s.barrierSet && !s.updater.Blocked? ==> UPDATER in s.absent)
    && (s.updater.Bumped? ==> s.barrierSet && s.generation > 0)
    && UPDATER !in s.readers
    && (forall id :: id in s.readers && s.readers[id].at.Starting? ==> id in s.absent)
    && (forall id :: id in s.readers && !s.readers[id].at.Starting? && !s.readers[id].at.Waiting? ==> s.barrier == 0)
  }

  ghost predicate Invariant(s: State) {
    && |s.versions| > 0 && Counted(s) && BarrierOk(s)
    && (!s.updater.Writing? ==> s.tickets == s.versions[|s.versions| - 1])
    && (forall k :: 0 < k < |s.versions| ==> Installable(s.versions[k]))
    && (forall id :: id in s.readers ==> ReaderOk(s, s.readers[id]))
  }

  /** A thread past the barrier finds that the first vector is installed. */
  lemma BarrierPassed(s: State, id: Id)
    requires Invariant(s) && id in s.readers && !s.readers[id].at.Starting? && !s.readers[id].at.Waiting?
    ensures s.generation > 0 && |s.versions| > 1
  {
    assert UPDATER in s.absent ==> |s.absent| > 0;
  }

  lemma KeysetsSnoc(v: Vector, n: nat)
    requires n < |v|
    ensures Keysets(v[..n + 1]) == Keysets(v[..n]) + [KeysetOf(v[n])]
  {
    assert v[..n + 1][..n] == v[..n];
  }

  lemma KeysetsNone(v: Vector)
    ensures Keysets(v[..0]) == []
  {
  }

  lemma ReaderStepKeeps(s: State, a: Action, id: Id, r': Reader)
    requires Invariant(s) && id in s.readers && ReaderStep(s, a, id, s.readers[id], r')
    ensures ReaderOk(s, r')
  {
    hide Keysets, BarrierOk, Installable;
    var r := s.readers[id];
    if !r.at.Starting? && !r.at.Waiting? { BarrierPassed(s, id); }
    if a.CopyOne? { KeysetsSnoc(s.tickets, |r.keys|); }
    if a.ReadUnlock? { assert s.tickets[..|s.tickets|] == s.tickets; }
    if a.ReadLock? { KeysetsNone(s.tickets); }
  }

  /** A thread is untouched by steps that only add versions, move the count on or take the idle lock. */
  lemma ReaderUntouched(s: State, s': State, r: Reader)
    requires ReaderOk(s, r) && s.generation <= s'.generation && s.versions <= s'.versions
    requires r.at.Copying? ==> !WriteHeld(s') && s'.versions == s.versions && s'.tickets == s.tickets
    ensures ReaderOk(s', r)
  {
  }

  lemma ReaderKeeps(s: State, a: Action, s': State)
    requires Invariant(s) && OfReader(a) && Next(s, a, s')
    ensures Invariant(s')
  {
    hide ReaderOk, Counted;
    ReaderStepKeeps(s, a, a.id, s'.readers[a.id]);
    assert Counted(s') by { CountedSame(s, s'); }
    forall id | id in s'.readers ensures ReaderOk(s', s'.readers[id]) {
      SameShared(s, s', s'.readers[id]);
    }
    assert BarrierOk(s') by { if a.Arrive? { assert |s.absent - {a.id}| + 1 == |s.absent|; } }
  }

  lemma SameShared(s: State, s': State, r: Reader)
    requires ReaderOk(s, r) && s.generation == s'.generation && s.versions == s'.versions && s.updater == s'.updater
        && s.tickets == s'.tickets
    ensures ReaderOk(s', r)
  {
  }

  lemma CountedSame(s: State, s': State)
    requires Counted(s) && s.generation == s'.generation && s.versions == s'.versions && s.updater == s'.updater
    ensures Counted(s')
  {
  }

  lemma UpdaterKeeps(s: State, a: Action, s': State)
    requires Invariant(s) && !OfReader(a) && Next(s, a, s')
    ensures Invariant(s')
  {
    hide ReaderOk, BarrierOk, Installable;
    UpdaterBarrier(s, a, s');
    forall id | id in s'.readers ensures ReaderOk(s', s'.readers[id]) {
      NotCopying(s, s.readers[id]);
      ReaderUntouched(s, s', s.readers[id]);
    }
  }

  lemma UpdaterBarrier(s: State, a: Action, s': State)
    requires BarrierOk(s) && UpdaterStep(s, a, s')
    ensures BarrierOk(s')
  {
    if a.UpdaterArrives? { assert |s.absent - {UPDATER}| + 1 == |s.absent|; }
  }

  lemma NotCopying(s: State, r: Reader)
    requires ReaderOk(s, r)
    ensures r.at.Copying? ==> !WriteHeld(s)
  {
  }

  lemma NextKeeps(s: State, a: Action, s': State)
    requires Invariant(s) && Next(s, a, s')
    ensures Invariant(s')
  {
    hide Invariant;
    if OfReader(a) { ReaderKeeps(s, a, s'); } else { UpdaterKeeps(s, a, s'); }
  }

  lemma InitHolds(s: State)
    requires Init(s)
    ensures Invariant(s)
  {
  }

  ghost predicate Execution(ss: seq<State>, acts: seq<Action>) {
    && |ss| == |acts| + 1 && Init(ss[0])
    && forall k :: 0 <= k < |acts| ==> |ss[k].versions| > 0 && Next(ss[k], acts[k], ss[k + 1])
  }

  lemma {:induction false} ExecutionKeeps(ss: seq<State>, acts: seq<Action>, k: nat)
    requires Execution(ss, acts) && k < |ss|
    ensures Invariant(ss[k])
  {
    hide Next, Invariant, Init;
    if k == 0 {
      InitHolds(ss[0]);
    } else {
      ExecutionKeeps(ss, acts, k - 1);
      NextKeeps(ss[k - 1], acts[k - 1], ss[k]);
    }
  }

  /** Whenever update_quic_keys returns, the thread caches a whole version of the vector, no older than the
      generation it last read and at most one install newer, and not empty. */
  lemma ReturnsFreshKeys(ss: seq<State>, acts: seq<Action>, k: nat)
    requires Execution(ss, acts) && k < |acts| && acts[k].ReadGeneration? && acts[k].id in ss[k + 1].readers
    requires ss[k + 1].readers[acts[k].id].at.Outside?
    ensures var r := ss[k + 1].readers[acts[k].id];
            && r.generation == ss[k].generation && r.generation <= r.version <= r.generation + 1
            && 0 < r.version < |ss[k + 1].versions| && r.keys == Keysets(ss[k + 1].versions[r.version]) && r.keys != []
  {
    ExecutionKeeps(ss, acts, k);
    ExecutionKeeps(ss, acts, k + 1);
    BarrierPassed(ss[k], acts[k].id);
    var r := ss[k + 1].readers[acts[k].id];
    assert Installable(ss[k + 1].versions[r.version]);
  }

  /** A thread holding the read lock finds the vector not empty. */
  lemma NeverEmpty(ss: seq<State>, acts: seq<Action>, k: nat, id: Id)
    requires Execution(ss, acts) && k < |ss| && id in ss[k].readers && ss[k].readers[id].at.Copying?
    ensures ss[k].tickets != []
  {
    ExecutionKeeps(ss, acts, k);
    BarrierPassed(ss[k], id);
    assert Installable(ss[k].versions[|ss[k].versions| - 1]);
  }

  // ---- Finding a key by its identifier ----------------------------------------------------------------

  /** find_quic_keyset: the first cached key with the identifier. */
  method FindKeyset(keys: seq<Keyset>, id: Byte) returns (r: Option<Keyset>)
    ensures r.None? <==> forall k :: k in keys ==> k.name != id
    ensures r.Some? ==>
        exists i :: 0 <= i < |keys| && keys[i] == r.value && keys[i].name == id
          && forall j :: 0 <= j < i ==> keys[j].name != id
  {
    var i := 0;
    while i != |keys|
      invariant 0 <= i <= |keys| && forall j :: 0 <= j < i ==> keys[j].name != id
      decreases |keys| - i
    {
      if keys[i].name == id {
        return Some(keys[i]);
      }
      i := i + 1;
    }
    return None;
  }

  lemma {:induction false} KeysetsAt(v: Vector, i: nat)
    requires i < |v|
    ensures Keysets(v)[i] == KeysetOf(v[i])
  {
    if i < |v| - 1 { KeysetsAt(v[..|v| - 1], i); }
  }

  /** In the keys of a vector with distinct first bytes, an identifier names one key: that of its ticket. */
  lemma KeysetByName(v: Vector, t: Ticket, k: Keyset)
    requires Distinct(v) && t in v && k in Keysets(v) && k.name == t.first
    ensures k == KeysetOf(t)
  {
    var i :| 0 <= i < |v| && v[i] == t;
    var j :| 0 <= j < |Keysets(v)| && Keysets(v)[j] == k;
    KeysetsAt(v, j);
    DistinctNames(v, i, j);
  }
}

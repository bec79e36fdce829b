/** Rotation of the session-ticket keys (src/ssl.c): a vector of keys, newest first, from which expired and
    colliding entries are removed and to which a fresh key is added in time. */
module Tickets {
  import opened Options

  type Byte = x: int | 0 <= x < 256

  /** A key; the name is its first byte and the rest, the key material is opaque. */
  datatype Ticket = Ticket(first: Byte, rest: nat, key: nat, notBefore: nat, notAfter: nat)

  type Vector = seq<Ticket>

  const RENEWAL_DELAY := 60
  const MAX_INTERVAL := 120

  predicate Same(a: Ticket, first: Byte, rest: nat) { a.first == first && a.rest == rest }

  // ---- Finding keys -------------------------------------------------------------------------------

  /** The key to encrypt with: the first started one, if it has not expired. */
  function EncKey(v: Vector, now: nat): Option<Ticket> {
    if v == [] then None
    else if v[0].notBefore > now then EncKey(v[1..], now)
    else if now <= v[0].notAfter then Some(v[0]) else None
  }

  method FindForEncryption(v: Vector, now: nat) returns (r: Option<Ticket>)
    ensures r == EncKey(v, now)
  {
    var i := 0;
    assert v[0..] == v;
    while i != |v|
      invariant 0 <= i <= |v| && EncKey(v[i..], now) == EncKey(v, now)
      decreases |v| - i
    {
      assert v[i..][1..] == v[i + 1..];
      if v[i].notBefore <= now {
        if now <= v[i].notAfter {
          return Some(v[i]);
        } else {
          return None;
        }
      }
      i := i + 1;
    }
    return None;
  }

  /** The found key is a valid member, and everything newer has yet to start. */
  lemma {:induction false} EncKeyIndex(v: Vector, now: nat) returns (i: nat)
    requires EncKey(v, now).Some?
    ensures i < |v| && v[i] == EncKey(v, now).value && v[i].notBefore <= now <= v[i].notAfter
    ensures forall j :: 0 <= j < i ==> v[j].notBefore > now
  {
    if v[0].notBefore > now {
      var k := EncKeyIndex(v[1..], now);
      i := k + 1;
    } else {
      i := 0;
    }
  }

  lemma {:induction false} EncKeyAt(v: Vector, now: nat, i: nat)
    requires i < |v| && v[i].notBefore <= now <= v[i].notAfter
    requires forall j :: 0 <= j < i ==> v[j].notBefore > now
    ensures EncKey(v, now) == Some(v[i])
  {
    if i > 0 { EncKeyAt(v[1..], now, i - 1); }
  }

  datatype Lookup = NotFound | Current(t: Ticket) | Renew(t: Ticket)

  /** The decryption half of ticket_key_callback: lookup by name, asking for renewal if a newer key is active. */
  method FindByName(v: Vector, first: Byte, rest: nat, now: nat) returns (r: Lookup, ghost at: nat)
    ensures r.NotFound? <==> forall t :: t in v ==> !Same(t, first, rest)
    ensures !r.NotFound? ==>
        FirstNamed(v, at, first, rest) && r.t == v[at]
        && (r.Renew? <==> at != 0 && v[at - 1].notBefore <= now)
  {
    var i := 0;
    while i != |v|
      invariant 0 <= i <= |v| && forall j :: 0 <= j < i ==> !Same(v[j], first, rest)
      decreases |v| - i
    {
      if Same(v[i], first, rest) {
        if i != 0 && v[i - 1].notBefore <= now {
          return Renew(v[i]), i;
        }
        return Current(v[i]), i;
      }
      i := i + 1;
    }
    return NotFound, i;
  }

  ghost predicate FirstNamed(v: Vector, i: nat, first: Byte, rest: nat) {
    i < |v| && Same(v[i], first, rest) && forall j :: 0 <= j < i ==> !Same(v[j], first, rest)
  }

  // ---- Updating -----------------------------------------------------------------------------------

  function DropExpired(v: Vector, now: nat): (r: Vector)
    ensures r <= v
  {
    if v != [] && now > v[|v| - 1].notAfter then DropExpired(v[..|v| - 1], now) else v
  }

  predicate Has(v: Vector, b: Byte) { v != [] && (v[0].first == b || Has(v[1..], b)) }

  ghost predicate Distinct(v: Vector) { v == [] || (!Has(v[1..], v[0].first) && Distinct(v[1..])) }

  ghost predicate StartBy(v: Vector, n: nat) { v == [] || (v[0].notBefore <= n && StartBy(v[1..], n)) }

  /** Newest first. */
  ghost predicate Sorted(v: Vector) { v == [] || (StartBy(v[1..], v[0].notBefore) && Sorted(v[1..])) }

  /** Without the entries whose first byte occurs again later. */
  ghost function KeepLast(v: Vector): Vector {
    if v == [] then [] else if Has(v[1..], v[0].first) then KeepLast(v[1..]) else [v[0]] + KeepLast(v[1..])
  }

  ghost function LastWith(v: Vector, b: Byte): Option<Ticket> {
    if v == [] then None
    else if LastWith(v[1..], b).Some? then LastWith(v[1..], b)
    else if v[0].first == b then Some(v[0]) else None
  }

  ghost predicate Subsequence(s: Vector, v: Vector) {
    s == [] || (v != [] && ((s[0] == v[0] && Subsequence(s[1..], v[1..])) || Subsequence(s, v[1..])))
  }

  lemma {:induction false} HasLast(v: Vector, b: Byte)
    ensures Has(v, b) <==> LastWith(v, b).Some?
    ensures Has(v, b) ==> LastWith(v, b).value in v && LastWith(v, b).value.first == b
    ensures Has(KeepLast(v), b) <==> Has(v, b)
  {
    if v != [] {
      HasLast(v[1..], b);
      if !Has(v[1..], v[0].first) { assert KeepLast(v)[1..] == KeepLast(v[1..]); }
    }
  }

  /** Exactly the last entry of every group that shares a first byte is kept, in order. */
  lemma {:induction false} KeptExactly(v: Vector, t: Ticket)
    ensures t in KeepLast(v) <==> LastWith(v, t.first) == Some(t)
    ensures Distinct(KeepLast(v)) && Subsequence(KeepLast(v), v)
  {
    if v != [] {
      KeptExactly(v[1..], t);
      HasLast(v[1..], v[0].first);
      HasLast(v[1..], t.first);
      if !Has(v[1..], v[0].first) {
        assert KeepLast(v)[1..] == KeepLast(v[1..]);
      }
    }
  }

  lemma {:induction false} KeptSorted(v: Vector, n: nat)
    ensures StartBy(v, n) ==> StartBy(KeepLast(v), n)
    ensures Sorted(v) ==> Sorted(KeepLast(v))
  {
    if v != [] {
      KeptSorted(v[1..], n);
      KeptSorted(v[1..], v[0].notBefore);
      if !Has(v[1..], v[0].first) { assert KeepLast(v)[1..] == KeepLast(v[1..]); }
    }
  }

  lemma {:induction false} KeptDistinct(v: Vector)
    requires Distinct(v)
    ensures KeepLast(v) == v
  {
    if v != [] { KeptDistinct(v[1..]); }
  }

  /** Removing an entry whose first byte comes again does not change what is kept. */
  lemma {:induction false} RemoveOffending(v: Vector, i: nat)
    requires i < |v| && Has(v[i + 1..], v[i].first)
    ensures KeepLast(v[..i] + v[i + 1..]) == KeepLast(v)
    ensures forall b :: Has(v[..i] + v[i + 1..], b) <==> Has(v, b)
  {
    var w := v[..i] + v[i + 1..];
    if i == 0 {
      assert w == v[1..];
    } else {
      assert w[1..] == v[1..][..i - 1] + v[1..][i..];
      assert v[i + 1..] == v[1..][i..];
      RemoveOffending(v[1..], i - 1);
    }
  }

  datatype Outcome = NoSpace | Updated(altered: bool)

  function Up(b: Byte, k: nat): Byte { (b + k) % 256 }

  ghost predicate UsedFrom(v: Vector, b: Byte, k: nat) { forall j :: 0 <= j < k ==> Has(v, Up(b, j)) }

  /** Going up from `b`, the byte `k` steps further is the first that no entry has. */
  ghost predicate FirstFree(v: Vector, b: Byte, k: nat) { UsedFrom(v, b, k) && !Has(v, Up(b, k)) }

  ghost function Firsts(v: Vector): set<int> { if v == [] then {} else {v[0].first} + Firsts(v[1..]) }

  lemma {:induction false} FirstsSize(v: Vector)
    ensures |Firsts(v)| <= |v|
  {
    if v != [] { FirstsSize(v[1..]); }
  }

  lemma {:induction false} InFirsts(v: Vector, b: Byte)
    ensures b in Firsts(v) <==> Has(v, b)
  {
    if v != [] { InFirsts(v[1..], b); }
  }

  lemma {:induction false} AllBelow(s: set<int>, n: nat)
    requires forall b :: 0 <= b < n ==> b in s
    ensures |s| >= n
  {
    if n > 0 { AllBelow(s - {n - 1}, n - 1); }
  }

  /** 256 different first bytes need 256 entries. */
  lemma Pigeonhole(v: Vector, b: Byte)
    requires UsedFrom(v, b, 256)
    ensures |v| >= 256
  {
    FirstsSize(v);
    forall c | 0 <= c < 256 ensures c in Firsts(v) {
      var j := if c >= b then c - b else c - b + 256;
      assert Up(b, j) == c;
      InFirsts(v, c);
    }
    AllBelow(Firsts(v), 256);
  }

  ghost function Kept(v: Vector, now: nat): Vector { KeepLast(DropExpired(v, now)) }

  /** A new key is due: none is valid, or the newest is older than a quarter of the lifetime. */
  ghost predicate Needs(kept: Vector, now: nat, lifetime: nat) {
    EncKey(kept, now).None? || (kept != [] && kept[0].notBefore + lifetime / 4 < now)
  }

  function Fresh(kept: Vector, now: nat, lifetime: nat, first: Byte, rest: nat, key: nat): Ticket
    requires lifetime > 0
  {
    var notBefore := if EncKey(kept, now).Some? then now + RENEWAL_DELAY else now;
    Ticket(first, rest, key, notBefore, notBefore + lifetime - 1)
  }

  /** One update, whatever the random bytes. */
  ghost predicate Updates(v: Vector, now: nat, lifetime: nat, v': Vector, altered: bool)
    requires lifetime > 0
  {
    var kept := Kept(v, now);
    && |kept| < 256
    && if Needs(kept, now, lifetime) then
         altered && |v'| == |kept| + 1 && v'[1..] == kept && !Has(kept, v'[0].first)
         && v'[0] == Fresh(kept, now, lifetime, v'[0].first, v'[0].rest, v'[0].key)
       else
         v' == kept && (altered <==> DropExpired(v, now) != v)
  }

  /** No entry before `n` has its first byte used again. */
  ghost predicate Settled(v: Vector, n: nat)
    requires n <= |v|
  {
    n == 0 || (!Has(v[1..], v[0].first) && Settled(v[1..], n - 1))
  }

  lemma {:induction false} SettledMore(v: Vector, n: nat)
    requires n < |v| && Settled(v, n) && !Has(v[n + 1..], v[n].first)
    ensures Settled(v, n + 1)
  {
    if n > 0 {
      assert v[n + 1..] == v[1..][n..];
      SettledMore(v[1..], n - 1);
    }
  }

  lemma {:induction false} SettledRemove(v: Vector, n: nat)
    requires n < |v| && Settled(v, n) && Has(v[n + 1..], v[n].first)
    ensures Settled(v[..n] + v[n + 1..], n)
  {
    var w := v[..n] + v[n + 1..];
    if n > 0 {
      assert w[1..] == v[1..][..n - 1] + v[1..][n..];
      assert v[n + 1..] == v[1..][n..];
      SettledRemove(v[1..], n - 1);
      RemoveOffending(v[1..], n - 1);
    }
  }

  lemma {:induction false} SettledAll(v: Vector, n: nat)
    requires n <= |v| <= n + 1 && Settled(v, n)
    ensures Distinct(v)
  {
    if n > 0 { SettledAll(v[1..], n - 1); }
  }

  class TicketVector {
    var entries: Vector

    constructor ()
      ensures entries == []
    {
      entries := [];
    }

    /** Frees the oldest entries as long as they have expired. */
    method RemoveOld(now: nat) returns (altered: bool)
      modifies this
      ensures entries == DropExpired(old(entries), now) && (altered <==> entries != old(entries))
    {
      altered := false;
      while |entries| != 0
        invariant DropExpired(entries, now) == DropExpired(old(entries), now)
        invariant |entries| <= |old(entries)| && (altered <==> |entries| != |old(entries)|)
            && (!altered ==> entries == old(entries))
        decreases |entries|
      {
        var oldest := entries[|entries| - 1];
        if now <= oldest.notAfter {
          break;
        }
        entries := entries[..|entries| - 1];
        altered := true;
      }
    }

    /** The scan for a later entry with the first byte of the entry at `offending`. */
    method FindCollision(offending: nat) returns (i: nat)
      requires offending < |entries|
      ensures offending < i <= |entries| && (i < |entries| <==> Has(entries[offending + 1..], entries[offending].first))
    {
      i := offending + 1;
      ghost var b := entries[offending].first;
      while i < |entries|
        invariant offending < i <= |entries| && (Has(entries[i..], b) <==> Has(entries[offending + 1..], b))
        decreases |entries| - i
      {
        if entries[i].first == entries[offending].first {
          break;
        }
        assert entries[i..][1..] == entries[i + 1..];
        i := i + 1;
      }
    }

    /** Removes every entry whose first byte is used again by an older one. */
    method RemoveCollisions()
      modifies this
      ensures entries == KeepLast(old(entries))
    {
      if |entries| > 1 {
        var offending := 0;
        while true
          invariant 0 <= offending < |entries| && KeepLast(entries) == KeepLast(old(entries))
          invariant Settled(entries, offending)
          decreases |entries| - offending
        {
          var i := FindCollision(offending);
          if i < |entries| {
            RemoveOffending(entries, offending);
            SettledRemove(entries, offending);
            entries := entries[..offending] + entries[offending + 1..];
          } else {
            SettledMore(entries, offending);
            offending := offending + 1;
          }
          if offending >= |entries| - 1 {
            break;
          }
        }
        SettledAll(entries, offending);
        KeptDistinct(entries);
      } else if |entries| == 1 {
        assert KeepLast(entries) == entries;
      }
    }

    /** The scan for an entry with a given first byte. */
    method Collides(b: Byte) returns (r: bool)
      ensures r == Has(entries, b)
    {
      var i := 0;
      assert entries[0..] == entries;
      while i < |entries|
        invariant 0 <= i <= |entries| && (Has(entries[i..], b) <==> Has(entries, b))
        decreases |entries| - i
      {
        if entries[i].first == b {
          return true;
        }
        assert entries[i..][1..] == entries[i + 1..];
        i := i + 1;
      }
      return false;
    }

    /** The renaming loop: increments the first byte, wrapping around, until no entry has it. */
    method AvoidCollision(b: Byte) returns (first: Byte)
      requires |entries| < 256
      ensures exists k :: 0 <= k < 256 && first == Up(b, k) && FirstFree(entries, b, k)
    {
      first := b;
      ghost var k := 0;
      while true
        invariant 0 <= k < 256 && first == Up(b, k) && UsedFrom(entries, b, k)
        decreases 256 - k
      {
        var collides := Collides(first);
        if !collides {
          assert FirstFree(entries, b, k);
          return;
        }
        assert UsedFrom(entries, b, k + 1);
        if k == 255 { Pigeonhole(entries, b); }
        first := (first + 1) % 256;
        k := k + 1;
      }
    }

    /** update_tickets; `first`, `rest` and `key` are the random bytes of a new key. */
    method Update(now: nat, lifetime: nat, first: Byte, rest: nat, key: nat) returns (outcome: Outcome)
      requires lifetime > 0
      modifies this
      ensures outcome.NoSpace? <==> |Kept(old(entries), now)| >= 256
      ensures outcome.Updated? ==> Updates(old(entries), now, lifetime, entries, outcome.altered)
      ensures outcome.Updated? && Needs(Kept(old(entries), now), now, lifetime) ==>
                exists k :: 0 <= k < 256 && FirstFree(Kept(old(entries), now), first, k) &&
                            entries[0] == Fresh(Kept(old(entries), now), now, lifetime, Up(first, k), rest, key)
    {
      var altered := RemoveOld(now);
      RemoveCollisions();
      if |entries| >= 256 {
        return NoSpace;
      }
      var valid := FindForEncryption(entries, now);
      if valid.None? || entries[0].notBefore + lifetime / 4 < now {
        var notBefore := if valid.Some? then now + RENEWAL_DELAY else now;
        var name := AvoidCollision(first);
        entries := [Ticket(name, rest, key, notBefore, notBefore + lifetime - 1)] + entries;
        altered := true;
      }
      return Updated(altered);
    }
  }

  // ---- What one update promises ---------------------------------------------------------------------

  lemma {:induction false} KeptLastEntry(v: Vector)
    requires v != []
    ensures KeepLast(v) != [] && KeepLast(v)[|KeepLast(v)| - 1] == v[|v| - 1]
  {
    if |v| > 1 {
      KeptLastEntry(v[1..]);
    } else {
      assert KeepLast(v) == [v[0]] + KeepLast(v[1..]);
    }
  }

  lemma {:induction false} DroppedLast(v: Vector, now: nat)
    ensures var d := DropExpired(v, now); d == [] || now <= d[|d| - 1].notAfter
    ensures forall i :: |DropExpired(v, now)| <= i < |v| ==> v[i].notAfter < now
  {
    if v != [] && now > v[|v| - 1].notAfter { DroppedLast(v[..|v| - 1], now); }
  }

  lemma KeptFacts(v: Vector, now: nat)
    ensures Distinct(Kept(v, now)) && DropExpired(Kept(v, now), now) == Kept(v, now)
  {
    var d := DropExpired(v, now);
    DroppedLast(v, now);
    if d != [] {
      KeptLastEntry(d);
      KeptExactly(d, d[0]);
    }
  }

  /** An update leaves distinct first bytes and a key to encrypt with. */
  lemma UpdateGives(v: Vector, now: nat, lifetime: nat, v': Vector, altered: bool)
    requires lifetime > 0 && Updates(v, now, lifetime, v', altered)
    ensures Distinct(v') && EncKey(v', now).Some? && v' != [] && DropExpired(v', now) == v'
  {
    KeptFacts(v, now);
    var kept := Kept(v, now);
    if Needs(kept, now, lifetime) && kept != [] { assert v'[|v'| - 1] == kept[|kept| - 1]; }
  }

  /** Repeated at the same time, an update changes nothing and says so, unless it has filled all 256 first
      bytes: then the repetition stops the server. */
  lemma Repetition(v: Vector, now: nat, lifetime: nat, v': Vector, altered: bool, v'': Vector, altered'': bool)
    requires lifetime > 0 && Updates(v, now, lifetime, v', altered)
    ensures |Kept(v', now)| >= 256 <==> |Kept(v, now)| == 255 && Needs(Kept(v, now), now, lifetime)
    ensures |Kept(v', now)| < 256 ==> (Updates(v', now, lifetime, v'', altered'') <==> v'' == v' && !altered'')
  {
    UpdateGives(v, now, lifetime, v', altered);
    KeptDistinct(v');
  }

  /** Keys with the first bytes below `n`, all of one age. */
  ghost function Row(n: nat): (v: Vector)
    requires n <= 256
    ensures |v| == n
  {
    if n == 0 then [] else [Ticket(n - 1, 0, 0, 0, 5000)] + Row(n - 1)
  }

  lemma {:induction false} RowDistinct(n: nat)
    requires n <= 256
    ensures Distinct(Row(n)) && (forall b: Byte :: Has(Row(n), b) <==> b < n)
    ensures n > 0 ==> Row(n)[0].notBefore == 0 && Row(n)[n - 1].notAfter == 5000
  {
    if n > 0 {
      assert Row(n)[1..] == Row(n - 1);
      RowDistinct(n - 1);
    }
  }

  /** A vector that an update takes and leaves in a state that no update takes. */
  lemma RepetitionStops() returns (v: Vector, v': Vector)
    ensures Updates(v, 1000, 3600, v', true)
    ensures forall v'', altered :: !Updates(v', 1000, 3600, v'', altered)
  {
    v := Row(255);
    RowDistinct(255);
    KeptDistinct(v);
    v' := [Ticket(255, 0, 0, 1000 + RENEWAL_DELAY, 1000 + RENEWAL_DELAY + 3599)] + v;
    assert v'[1..] == v && EncKey(v, 1000) == Some(v[0]);
    Repetition(v, 1000, 3600, v', true, v', true);
  }

  lemma {:induction false} SortedPrefix(v: Vector, n: nat)
    requires Sorted(v) && n <= |v|
    ensures Sorted(v[..n])
  {
    if n > 0 {
      SortedPrefix(v[1..], n - 1);
      StartByPrefix(v[1..], n - 1, v[0].notBefore);
      assert v[..n][1..] == v[1..][..n - 1];
    }
  }

  lemma {:induction false} StartByPrefix(v: Vector, n: nat, b: nat)
    requires StartBy(v, b) && n <= |v|
    ensures StartBy(v[..n], b)
  {
    if n > 0 {
      StartByPrefix(v[1..], n - 1, b);
      assert v[..n][1..] == v[1..][..n - 1];
    }
  }

  lemma {:induction false} StartByLater(v: Vector, b: nat, c: nat)
    requires StartBy(v, b) && b <= c
    ensures StartBy(v, c)
  {
    if v != [] { StartByLater(v[1..], b, c); }
  }

  /** The new key goes in front of one that starts later: no key is valid although the newest is pending. */
  ghost predicate Overtakes(v: Vector, now: nat) {
    Kept(v, now) != [] && EncKey(Kept(v, now), now).None? && Kept(v, now)[0].notBefore > now
  }

  /** An update keeps the newest-first order exactly when the new key does not overtake a pending one. */
  lemma SortedIff(v: Vector, now: nat, lifetime: nat, v': Vector, altered: bool)
    requires lifetime > 0 && Updates(v, now, lifetime, v', altered) && Sorted(v)
    ensures Sorted(v') <==> !Overtakes(v, now)
  {
    var d, kept := DropExpired(v, now), Kept(v, now);
    SortedPrefix(v, |d|);
    assert d == v[..|d|];
    KeptSorted(d, 0);
    if kept != [] && kept[0].notBefore <= v'[0].notBefore {
      StartByLater(kept[1..], kept[0].notBefore, v'[0].notBefore);
    }
  }

  lemma OvertakingOne(pending: Ticket, added: Ticket, now: nat, lifetime: nat)
    requires lifetime > 0 && now < pending.notBefore && now <= pending.notAfter && added.first != pending.first
    requires added.notBefore == now && added.notAfter == now + lifetime - 1
    ensures Updates([pending], now, lifetime, [added, pending], true)
    ensures Sorted([pending]) && !Sorted([added, pending])
  {
    var v := [pending];
    assert [added, pending][1..] == v;
    assert Distinct(v);
    KeptDistinct(v);
    assert v[1..] == [];
    assert EncKey(v, now) == EncKey(v[1..], now) == None;
    assert !StartBy(v, now);
  }

  lemma OvertakingHappens()
    ensures exists v, now, v' :: Sorted(v) && Updates(v, now, 3600, v', true) && !Sorted(v')
  {
    OvertakingOne(Ticket(0, 0, 0, 100, 3699), Ticket(1, 1, 1, 10, 3609), 10, 3600);
  }

  // ---- Runs of the internal updater ---------------------------------------------------------------

  /** Keys of one lifetime, each started more than a quarter of it after the one before. */
  ghost predicate Spaced(v: Vector, lifetime: nat) {
    v == [] ||
    (&& v[0].notAfter + 1 == v[0].notBefore + lifetime
     && (|v| > 1 ==> v[0].notBefore >= v[1].notBefore + lifetime / 4 + RENEWAL_DELAY + 1)
     && Spaced(v[1..], lifetime))
  }

  /** What holds after an update at time `t`. */
  ghost predicate Rotating(v: Vector, t: nat, lifetime: nat) {
    && v != [] && Spaced(v, lifetime) && Distinct(v) && t <= v[|v| - 1].notAfter
    && t <= v[0].notBefore + lifetime / 4 && v[0].notBefore <= t + RENEWAL_DELAY
    && if |v| == 1 then v[0].notBefore <= t else v[1].notBefore <= t && v[0].notBefore <= v[1].notAfter + 1
  }

  lemma {:induction false} SpacedPrefix(v: Vector, lifetime: nat, n: nat)
    requires Spaced(v, lifetime) && Distinct(v) && n <= |v|
    ensures Spaced(v[..n], lifetime) && Distinct(v[..n]) && forall b :: Has(v[..n], b) ==> Has(v, b)
  {
    if n > 0 {
      SpacedPrefix(v[1..], lifetime, n - 1);
      assert v[..n][1..] == v[1..][..n - 1];
    }
  }

  /** At any time up to the next update there is a key to encrypt with. */
  lemma RotatingHasKey(v: Vector, t: nat, lifetime: nat, u: nat)
    requires Rotating(v, t, lifetime) && lifetime >= 240 && t <= u <= t + MAX_INTERVAL
    ensures EncKey(v, u) == Some(if v[0].notBefore <= u then v[0] else v[if |v| > 1 then 1 else 0])
    ensures EncKey(v, u).Some?
  {
    if v[0].notBefore <= u {
      EncKeyAt(v, u, 0);
    } else {
      EncKeyAt(v, u, 1);
    }
  }

  /** The next update keeps the invariant, and every key that has not expired. */
  lemma RotatingStep(v: Vector, t: nat, lifetime: nat, now: nat, v': Vector, altered: bool)
    requires Rotating(v, t, lifetime) && lifetime >= 240 && t <= now <= t + MAX_INTERVAL
    requires Updates(v, now, lifetime, v', altered)
    ensures Rotating(v', now, lifetime)
    ensures forall x :: x in v && now <= x.notAfter ==> x in v'
  {
    var d := DropExpired(v, now);
    DroppedLast(v, now);
    assert d == v[..|d|];
    SpacedPrefix(v, lifetime, |d|);
    KeptDistinct(d);
    assert |d| >= 1;
    RotatingHasKey(v, t, lifetime, now);
    if v[0].notBefore <= now { EncKeyAt(d, now, 0); } else { EncKeyAt(d, now, 1); }
  }

  /** The first update of an empty vector. */
  lemma RotatingStart(lifetime: nat, now: nat, v': Vector, altered: bool)
    requires lifetime > 0 && Updates([], now, lifetime, v', altered)
    ensures Rotating(v', now, lifetime)
  {
    assert |v'| == 1;
  }

  /** Update number `k` of a run takes vector `k` to vector `k + 1`, soon enough after the update before. */
  ghost predicate RunStep(ts: seq<nat>, vs: seq<Vector>, lifetime: nat, k: nat)
    requires lifetime > 0 && k < |ts| && |vs| == |ts| + 1
  {
    && (k > 0 ==> ts[k - 1] <= ts[k] <= ts[k - 1] + MAX_INTERVAL)
    && (Updates(vs[k], ts[k], lifetime, vs[k + 1], true) || Updates(vs[k], ts[k], lifetime, vs[k + 1], false))
  }

  /** A series of updates from an empty vector. */
  ghost predicate Run(ts: seq<nat>, vs: seq<Vector>, lifetime: nat)
    requires lifetime > 0
  {
    |vs| == |ts| + 1 && vs[0] == [] && forall k :: 0 <= k < |ts| ==> RunStep(ts, vs, lifetime, k)
  }

  lemma {:induction false} RunRotates(ts: seq<nat>, vs: seq<Vector>, lifetime: nat, k: nat)
    requires lifetime >= 240 && Run(ts, vs, lifetime) && k < |ts|
    ensures Rotating(vs[k + 1], ts[k], lifetime)
  {
    hide Updates, Rotating;
    assert RunStep(ts, vs, lifetime, k);
    var altered := Updates(vs[k], ts[k], lifetime, vs[k + 1], true);
    if k == 0 {
      RotatingStart(lifetime, ts[0], vs[1], altered);
    } else {
      RunRotates(ts, vs, lifetime, k - 1);
      RotatingStep(vs[k], ts[k - 1], lifetime, ts[k], vs[k + 1], altered);
    }
  }

  lemma {:induction false} SpacedSorted(v: Vector, lifetime: nat)
    requires Spaced(v, lifetime)
    ensures Sorted(v) && (v != [] ==> StartBy(v, v[0].notBefore) && v[|v| - 1].notBefore <= v[0].notBefore)
  {
    if v != [] {
      SpacedSorted(v[1..], lifetime);
      if |v| > 1 { StartByLater(v[1..], v[1].notBefore, v[0].notBefore); }
    }
  }

  lemma SpacedCount(v: Vector, t: nat, lifetime: nat)
    requires Rotating(v, t, lifetime)
    ensures |v| <= 4
  {
    if |v| >= 5 {
      var a, b, c, e := v[1..], v[1..][1..], v[1..][1..][1..], v[1..][1..][1..][1..];
      assert Spaced(a, lifetime);
      assert Spaced(b, lifetime);
      assert Spaced(c, lifetime);
      assert Spaced(e, lifetime);
      SpacedSorted(e, lifetime);
      assert e[|e| - 1] == v[|v| - 1];
      assert v[0].notBefore >= e[0].notBefore + 4 * (lifetime / 4 + 61);
      LastLifetime(v, lifetime);
    }
  }

  lemma {:induction false} LastLifetime(v: Vector, lifetime: nat)
    requires Spaced(v, lifetime) && v != []
    ensures v[|v| - 1].notAfter + 1 == v[|v| - 1].notBefore + lifetime
  {
    if |v| > 1 { LastLifetime(v[1..], lifetime); }
  }

  /** Every run of the internal updater: after the first update there is at every instant a key to encrypt
      with, the vector is sorted with distinct first bytes, and never holds more than four keys. */
  lemma RunSafe(ts: seq<nat>, vs: seq<Vector>, lifetime: nat, k: nat, u: nat)
    requires lifetime >= 240 && Run(ts, vs, lifetime) && k < |ts|
    requires ts[k] <= u <= ts[k] + MAX_INTERVAL
    ensures EncKey(vs[k + 1], u).Some?
    ensures Sorted(vs[k + 1]) && Distinct(vs[k + 1]) && 1 <= |vs[k + 1]| <= 4
  {
    RunRotates(ts, vs, lifetime, k);
    RotatingHasKey(vs[k + 1], ts[k], lifetime, u);
    SpacedSorted(vs[k + 1], lifetime);
    SpacedCount(vs[k + 1], ts[k], lifetime);
  }

  lemma {:induction false} DistinctNames(v: Vector, i: nat, j: nat)
    requires Distinct(v) && i < |v| && j < |v| && v[i].first == v[j].first
    ensures i == j
  {
    if i > 0 && j > 0 {
      DistinctNames(v[1..], i - 1, j - 1);
    } else if i > 0 || j > 0 {
      HasAt(v[1..], i + j - 1);
    }
  }

  lemma {:induction false} HasAt(v: Vector, i: nat)
    requires i < |v|
    ensures Has(v, v[i].first)
  {
    if i > 0 { HasAt(v[1..], i - 1); }
  }

  /** A key stays until it expires: what it encrypted can be decrypted by name, with the same key. */
  lemma {:induction false} RunRetains(ts: seq<nat>, vs: seq<Vector>, lifetime: nat, k: nat, n: nat, x: Ticket, at: nat)
    requires lifetime >= 240 && Run(ts, vs, lifetime) && k <= n < |ts|
    requires x in vs[k + 1] && ts[n] <= x.notAfter
    ensures x in vs[n + 1]
    ensures FirstNamed(vs[n + 1], at, x.first, x.rest) ==> vs[n + 1][at] == x
    decreases n
  {
    hide Updates, Spaced;
    if n > k {
      assert RunStep(ts, vs, lifetime, n);
      RunRetains(ts, vs, lifetime, k, n - 1, x, at);
      RunRotates(ts, vs, lifetime, n - 1);
      var altered := Updates(vs[n], ts[n], lifetime, vs[n + 1], true);
      RotatingStep(vs[n], ts[n - 1], lifetime, ts[n], vs[n + 1], altered);
    }
    RunRotates(ts, vs, lifetime, n);
    var i :| 0 <= i < |vs[n + 1]| && vs[n + 1][i] == x;
    if FirstNamed(vs[n + 1], at, x.first, x.rest) { DistinctNames(vs[n + 1], at, i); }
  }
}

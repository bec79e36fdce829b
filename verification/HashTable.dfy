/** The chained hash table of deps/hiredis/dict.c: a bucket array of singly linked entries that
    doubles when full, refining a finite map. */
module HashTable {
  import opened Hiredis
  import opened Options
  import opened Powers

  type Key = string

  const INITIAL_SIZE := 4

  // ---- Masked hashes --------------------------------------------------------------------------

  ghost predicate IsPow2(n: nat) { exists k: nat :: n == Pow2(k) }

  /** Bitwise and. */
  function And(a: nat, b: nat): nat {
    if a == 0 || b == 0 then 0 else 2 * And(a / 2, b / 2) + (if a % 2 == 1 && b % 2 == 1 then 1 else 0)
  }

  /** dictGenHashFunction: hash * 33 + c over the bytes of the key, in 32-bit arithmetic. */
  function Hash(key: Key): nat {
    if key == "" then 5381 else (Hash(key[..|key| - 1]) * 33 + key[|key| - 1] as int) % 0x1_0000_0000
  }

  lemma {:induction false} AndBound(a: nat, b: nat)
    ensures And(a, b) <= b
  {
    if a != 0 && b != 0 { AndBound(a / 2, b / 2); }
  }

  /** _dictNextPower: the least power of two from the initial size on that holds `size`. */
  method NextPower(size: nat) returns (i: nat)
    ensures IsPow2(i) && i >= size && i >= INITIAL_SIZE
    ensures i > INITIAL_SIZE ==> i / 2 < size
  {
    i := INITIAL_SIZE;
    ghost var k := 2;
    assert Pow2(0) == 1 && Pow2(1) == 2;
    while i < size
      invariant i == Pow2(k) && i >= INITIAL_SIZE
      invariant i > INITIAL_SIZE ==> i / 2 < size
      decreases size - i
    {
      i := i * 2;
      k := k + 1;
    }
  }

  // ---- Memory -----------------------------------------------------------------------------------

  datatype Entry = Entry(key: Key, val: Callback, next: Ptr)
  type Memory = map<Ptr, Entry>
  type Chains = seq<seq<Ptr>>

  function Index(key: Key, mask: nat): nat { And(Hash(key), mask) }

  /** `p` is the entry recorded for its key. */
  ghost predicate Owned(m: Memory, own: map<Key, Ptr>, p: Ptr) {
    p in m && m[p].key in own && own[m[p].key] == p
  }

  /** `head` starts the linked list whose nodes are `c`: distinct owned entries whose masked hash is `i`. */
  ghost predicate Bucket(m: Memory, mask: nat, own: map<Key, Ptr>, i: nat, head: Ptr, c: seq<Ptr>)
    decreases |c|
  {
    if c == [] then head == NULL else
    && head == c[0] != NULL && head !in c[1..]
    && Owned(m, own, head) && Index(m[head].key, mask) == i
    && Bucket(m, mask, own, i, m[head].next, c[1..])
  }

  /** The entry of `k` is in the bucket of its masked hash. */
  ghost predicate Placed(m: Memory, mask: nat, own: map<Key, Ptr>, cs: Chains, k: Key) {
    var i := Index(k, mask);
    k in own && own[k] in m && m[own[k]].key == k && i < |cs| && own[k] in cs[i]
  }

  /** The buckets hold exactly the entries of `own`, each once and in its place. */
  ghost predicate Holds(m: Memory, mask: nat, own: map<Key, Ptr>, table: seq<Ptr>, cs: Chains) {
    && |cs| == |table|
    && (forall i :: 0 <= i < |cs| ==> Bucket(m, mask, own, i, table[i], cs[i]))
    && (forall k :: k in own ==> Placed(m, mask, own, cs, k))
  }

  lemma {:induction false} BucketMember(m: Memory, mask: nat, own: map<Key, Ptr>, i: nat, head: Ptr,
                                        c: seq<Ptr>, p: Ptr)
    requires Bucket(m, mask, own, i, head, c) && p in c
    ensures p != NULL && Owned(m, own, p) && Index(m[p].key, mask) == i
    decreases |c|
  {
    if p != c[0] { BucketMember(m, mask, own, i, m[head].next, c[1..], p); }
  }

  lemma BucketHead(m: Memory, mask: nat, own: map<Key, Ptr>, i: nat, head: Ptr, c: seq<Ptr>)
    requires Bucket(m, mask, own, i, head, c) && c != []
    ensures head == c[0] != NULL && head !in c[1..] && Owned(m, own, head) && Index(m[head].key, mask) == i
    ensures Bucket(m, mask, own, i, m[head].next, c[1..])
  {
  }

  lemma BucketCons(m: Memory, mask: nat, own: map<Key, Ptr>, i: nat, head: Ptr, c: seq<Ptr>)
    requires c != [] && head == c[0] != NULL && head !in c[1..] && Owned(m, own, head) && Index(m[head].key, mask) == i
    requires Bucket(m, mask, own, i, m[head].next, c[1..])
    ensures Bucket(m, mask, own, i, head, c)
  {
  }

  /** A bucket whose nodes keep their contents and owners is kept. */
  lemma {:induction false} BucketFrame(m: Memory, m': Memory, mask: nat, own: map<Key, Ptr>,
                                       own': map<Key, Ptr>, i: nat, head: Ptr, c: seq<Ptr>)
    requires Bucket(m, mask, own, i, head, c)
    requires forall p :: p in c && Owned(m, own, p) ==>
                         p in m' && m'[p].key == m[p].key && m'[p].next == m[p].next && Owned(m', own', p)
    ensures Bucket(m', mask, own', i, head, c)
    decreases |c|
  {
    if c != [] { BucketFrame(m, m', mask, own, own', i, m[head].next, c[1..]); }
  }

  /** Linking an entry in front of its bucket, as both insertion and rehashing do. */
  lemma PushKeeps(m: Memory, m': Memory, mask: nat, own: map<Key, Ptr>, table: seq<Ptr>, cs: Chains,
                  h: nat, e: Ptr, key: Key)
    requires Holds(m, mask, own, table, cs)
    requires key !in own && h == Index(key, mask) < |table| && e != NULL
    requires forall k :: k in own ==> own[k] != e
    requires e in m' && m'[e].key == key && m'[e].next == table[h]
    requires forall p :: p in m && p != e ==> p in m' && m'[p] == m[p]
    ensures h < |cs| && Holds(m', mask, own[key := e], table[h := e], cs[h := [e] + cs[h]])
  {
    hide Bucket;
    var cs', own' := cs[h := [e] + cs[h]], own[key := e];
    forall i | 0 <= i < |cs| ensures Bucket(m', mask, own', i, table[i], cs[i]) {
      BucketFrame(m, m', mask, own, own', i, table[i], cs[i]);
    }
    if e in cs[h] { BucketMember(m, mask, own, h, table[h], cs[h], e); }
    BucketPush(m', mask, own', h, table[h], cs[h], e);
    forall k | k in own' ensures Placed(m', mask, own', cs', k) {
      if k in own { assert Placed(m, mask, own, cs, k); }
    }
  }

  lemma BucketPush(m: Memory, mask: nat, own: map<Key, Ptr>, i: nat, head: Ptr, c: seq<Ptr>, e: Ptr)
    requires Bucket(m, mask, own, i, head, c)
    requires e != NULL && Owned(m, own, e) && Index(m[e].key, mask) == i && m[e].next == head && e !in c
    ensures Bucket(m, mask, own, i, e, [e] + c)
  {
    assert ([e] + c)[1..] == c;
  }

  /** A bucket that does not hold `e` survives freeing `e`. */
  lemma BucketWithout(m: Memory, m': Memory, mask: nat, own: map<Key, Ptr>, i: nat, head: Ptr, c: seq<Ptr>, e: Ptr)
    requires Bucket(m, mask, own, i, head, c) && Owned(m, own, e) && e !in c
    requires forall p :: p in c && p in m ==> p in m' && m'[p].key == m[p].key && m'[p].next == m[p].next
    ensures Bucket(m', mask, own - {m[e].key}, i, head, c)
  {
    hide Bucket, Index;
    BucketFrame(m, m', mask, own, own - {m[e].key}, i, head, c);
  }

  /** Memory after the entry at position `j` of a bucket is unlinked and freed. */
  function Unlinked(m: Memory, c: seq<Ptr>, j: nat): Memory
    requires j < |c| && c[j] in m && (j > 0 ==> c[j - 1] in m)
  {
    if j == 0 then m - {c[j]} else m[c[j - 1] := m[c[j - 1]].(next := m[c[j]].next)] - {c[j]}
  }

  lemma {:induction false} BucketUnlink(m: Memory, mask: nat, own: map<Key, Ptr>, i: nat, head: Ptr,
                                        c: seq<Ptr>, j: nat)
    requires Bucket(m, mask, own, i, head, c) && j < |c| && c[j] in m && (j > 0 ==> c[j - 1] in m)
    ensures Bucket(Unlinked(m, c, j), mask, own - {m[c[j]].key}, i,
                   if j == 0 then m[c[j]].next else head, c[..j] + c[j + 1..])
    decreases |c|
  {
    hide Bucket, Index;
    var m', own', e := Unlinked(m, c, j), own - {m[c[j]].key}, c[j];
    var c', c1 := c[..j] + c[j + 1..], c[1..];
    BucketHead(m, mask, own, i, head, c);
    BucketMember(m, mask, own, i, head, c, e);
    if j == 0 {
      assert c' == c1;
      BucketWithout(m, m', mask, own, i, m[head].next, c1, e);
    } else {
      assert c1[j - 1] == e && c'[1..] == c1[..j - 1] + c1[j..];
      if j == 1 {
        var c2 := c1[1..];
        assert c'[1..] == c2;
        BucketHead(m, mask, own, i, e, c1);
        assert head !in c2;
        BucketWithout(m, m', mask, own, i, m[e].next, c2, e);
      } else {
        assert c1[j - 2] == c[j - 1];
        BucketUnlink(m, mask, own, i, m[head].next, c1, j - 1);
      }
      BucketCons(m', mask, own', i, head, c');
    }
  }

  /** The same for the whole table. */
  lemma UnlinkKeeps(m: Memory, mask: nat, own: map<Key, Ptr>, table: seq<Ptr>, cs: Chains, h: nat, j: nat)
    requires Holds(m, mask, own, table, cs) && h < |cs| && j < |cs[h]|
    requires cs[h][j] in m && (j > 0 ==> cs[h][j - 1] in m)
    ensures Holds(Unlinked(m, cs[h], j), mask, own - {m[cs[h][j]].key},
                  table[h := if j == 0 then m[cs[h][j]].next else table[h]], cs[h := cs[h][..j] + cs[h][j + 1..]])
  {
    hide Bucket, And, Hash;
    var c := cs[h];
    var e := c[j];
    var m', own', cs' := Unlinked(m, c, j), own - {m[e].key}, cs[h := c[..j] + c[j + 1..]];
    BucketUnlink(m, mask, own, h, table[h], c, j);
    BucketMember(m, mask, own, h, table[h], c, e);
    if j > 0 { BucketMember(m, mask, own, h, table[h], c, c[j - 1]); }
    forall i | 0 <= i < |cs| && i != h ensures Bucket(m', mask, own', i, table[i], cs[i]) {
      forall p | p in cs[i] ensures p != e && (j > 0 ==> p != c[j - 1]) && Owned(m', own', p) {
        BucketMember(m, mask, own, i, table[i], cs[i], p);
      }
      BucketFrame(m, m', mask, own, own', i, table[i], cs[i]);
    }
    forall k | k in own' ensures Placed(m', mask, own', cs', k) {
      assert Placed(m, mask, own, cs, k);
      var i := Index(k, mask);
      if i == h { assert own[k] in c && own[k] != e; }
    }
  }

  /** Everything the table keeps when the entry of `key`, at position `j` of bucket `h`, is unlinked and freed. */
  lemma AfterUnlink(m: Memory, mask: nat, own: map<Key, Ptr>, table: seq<Ptr>, cs: Chains, h: nat, j: nat, key: Key)
    requires Keyed(m, own) && Holds(m, mask, own, table, cs)
    requires h < |cs| && h < |table| && j < |cs[h]| && key in own && cs[h][j] == own[key]
    requires cs[h][j] in m && (j > 0 ==> cs[h][j - 1] in m)
    ensures var m', own', c := Unlinked(m, cs[h], j), own - {key}, cs[h];
            && Keyed(m', own') && Values(m', own') == Values(m, own) - {key} && |own'.Keys| + 1 == |own.Keys|
            && Holds(m', mask, own', table[h := if j == 0 then m[c[j]].next else table[h]],
                     cs[h := c[..j] + c[j + 1..]])
            && (forall p :: p in m' ==> p in m && m'[p].key == m[p].key)
            && Frees(cs, cs[h := c[..j] + c[j + 1..]], own[key])
  {
    hide Holds, Keyed, Values, Unlinked, Frees;
    KeyOf(m, own, key);
    UnlinkKeeps(m, mask, own, table, cs, h, j);
    UnlinkedFacts(m, cs[h], j);
    KeyedRemove(m, own, key, Unlinked(m, cs[h], j));
    OneKeyLess(own, key);
    FreesAt(cs, h, j);
  }

  // ---- Rehashing --------------------------------------------------------------------------------

  /** Memory holds the entries of `own` and nothing else. */
  ghost predicate Keyed(m: Memory, own: map<Key, Ptr>) {
    && (forall k :: k in own ==> own[k] in m && m[own[k]].key == k)
    && (forall p :: p in m ==> m[p].key in own && own[m[p].key] == p)
  }

  ghost function Values(m: Memory, own: map<Key, Ptr>): map<Key, Callback>
    requires Keyed(m, own)
  {
    map k | k in own :: m[own[k]].val
  }

  lemma SameValues(m: Memory, m': Memory, own: map<Key, Ptr>)
    requires Keyed(m, own) && Keyed(m', own) && Relinked(m, m')
    ensures Values(m, own) == Values(m', own) && Values(m, own).Keys == own.Keys
  {
  }

  /** A fresh entry extends the map. */
  lemma KeyedAdd(m: Memory, own: map<Key, Ptr>, key: Key, p: Ptr, e: Entry)
    requires Keyed(m, own) && key !in own && p !in m && e.key == key
    ensures Keyed(m[p := e], own[key := p]) && forall k :: k in own ==> own[k] != p
    ensures Values(m[p := e], own[key := p]) == Values(m, own)[key := e.val]
  {
  }

  lemma SetValue(m: Memory, mask: nat, own: map<Key, Ptr>, table: seq<Ptr>, cs: Chains, p: Ptr, val: Callback)
    requires Keyed(m, own) && Holds(m, mask, own, table, cs) && p in m
    ensures var m' := m[p := m[p].(val := val)];
            Keyed(m', own) && Holds(m', mask, own, table, cs) && Values(m', own) == Values(m, own)[m[p].key := val]
  {
    hide Bucket, Index;
    var m' := m[p := m[p].(val := val)];
    forall i | 0 <= i < |cs| ensures Bucket(m', mask, own, i, table[i], cs[i]) {
      BucketFrame(m, m', mask, own, own, i, table[i], cs[i]);
    }
    forall k | k in own ensures Placed(m', mask, own, cs, k) { assert Placed(m, mask, own, cs, k); }
  }

  /** Freeing the entry of a key removes it from the map; `m'` may have relinked others. */
  lemma KeyedRemove(m: Memory, own: map<Key, Ptr>, key: Key, m': Memory)
    requires Keyed(m, own) && key in own && m'.Keys == m.Keys - {own[key]}
    requires forall p :: p in m' ==> m'[p].key == m[p].key && m'[p].val == m[p].val
    ensures Keyed(m', own - {key}) && Values(m', own - {key}) == Values(m, own) - {key}
  {
    var own' := own - {key};
    forall k | k in own' ensures own'[k] in m' && m'[own'[k]].key == k {}
    forall p | p in m' ensures m'[p].key in own' && own'[m'[p].key] == p {}
    forall k | k in own' ensures m'[own'[k]].val == m[own[k]].val {}
  }

  lemma KeyOf(m: Memory, own: map<Key, Ptr>, key: Key)
    requires Keyed(m, own) && key in own
    ensures own[key] in m && m[own[key]].key == key
  {
  }

  lemma OneKeyLess(own: map<Key, Ptr>, key: Key)
    requires key in own
    ensures |(own - {key}).Keys| + 1 == |own.Keys|
  {
    assert (own - {key}).Keys + {key} == own.Keys;
  }

  lemma UnlinkedFacts(m: Memory, c: seq<Ptr>, j: nat)
    requires j < |c| && c[j] in m && (j > 0 ==> c[j - 1] in m)
    ensures Unlinked(m, c, j).Keys == m.Keys - {c[j]}
    ensures forall p :: p in Unlinked(m, c, j) ==>
                        p in m && Unlinked(m, c, j)[p].key == m[p].key && Unlinked(m, c, j)[p].val == m[p].val
  {
  }

  lemma DeleteAbsent(m: Memory, own: map<Key, Ptr>, key: Key)
    requires Keyed(m, own)
    ensures key in Values(m, own) <==> key in own
    ensures key !in own ==> Values(m, own) - {key} == Values(m, own)
  {
  }

  lemma HoldsBucket(m: Memory, mask: nat, own: map<Key, Ptr>, table: seq<Ptr>, cs: Chains, h: nat, key: Key)
    requires Holds(m, mask, own, table, cs) && h == Index(key, mask) < |table|
    ensures |cs| == |table| && Bucket(m, mask, own, h, table[h], cs[h])
    ensures key in own ==> own[key] in cs[h]
  {
    hide Bucket;
    if key in own { assert Placed(m, mask, own, cs, key); }
  }

  lemma BucketNonEmpty(m: Memory, mask: nat, own: map<Key, Ptr>, i: nat, head: Ptr, c: seq<Ptr>)
    requires Bucket(m, mask, own, i, head, c)
    ensures head == NULL <==> c == []
  {
  }

  /** One node leaves the bucket it is in; the other buckets stay. */
  ghost predicate Frees(cs: Chains, cs': Chains, p: Ptr) {
    exists h, j :: 0 <= h < |cs| && 0 <= j < |cs[h]| && cs[h][j] == p && cs' == cs[h := cs[h][..j] + cs[h][j + 1..]]
  }

  lemma FreesAt(cs: Chains, h: nat, j: nat)
    requires h < |cs| && j < |cs[h]|
    ensures Frees(cs, cs[h := cs[h][..j] + cs[h][j + 1..]], cs[h][j])
  {
  }

  /** Rehashing has moved the keys of `nown`: those of buckets before `i`, and of bucket `i` all but `rest`. */
  ghost predicate Moved(mask: nat, own: map<Key, Ptr>, nown: map<Key, Ptr>, i: nat, rest: seq<Ptr>) {
    && nown.Keys <= own.Keys
    && forall k :: k in own ==>
         && (k in nown <==> Index(k, mask) < i || (Index(k, mask) == i && own[k] !in rest))
         && (k in nown ==> nown[k] == own[k])
  }

  /** Buckets from `i` on are linked as before. */
  ghost predicate Waiting(m: Memory, mask: nat, own: map<Key, Ptr>, table: seq<Ptr>, cs: Chains, i: nat) {
    |table| == |cs| && forall i' :: i <= i' < |cs| ==> Bucket(m, mask, own, i', table[i'], cs[i'])
  }

  ghost predicate Relinked(m: Memory, m': Memory) {
    m'.Keys == m.Keys && forall p :: p in m ==> m'[p].key == m[p].key && m'[p].val == m[p].val
  }

  /** `left` entries have not moved yet. */
  ghost predicate Remaining(own: map<Key, Ptr>, nown: map<Key, Ptr>, left: nat) {
    left == |own.Keys - nown.Keys|
  }

  ghost predicate Gained(own: map<Key, Ptr>, nown: map<Key, Ptr>, nown': map<Key, Ptr>) {
    exists key :: key in own && key !in nown && nown'.Keys == nown.Keys + {key}
  }

  /** Redirecting the front entry of bucket `i` leaves the rest of the bucket and all later ones linked. */
  lemma RelinkKeeps(m: Memory, m': Memory, mask: nat, own: map<Key, Ptr>, table: seq<Ptr>, cs: Chains,
                    i: nat, he: Ptr, rest: seq<Ptr>)
    requires rest != [] && Bucket(m, mask, own, i, he, rest)
    requires Waiting(m, mask, own, table, cs, i + 1) && Keyed(m, own)
    requires he in m && exists next :: m' == m[he := m[he].(next := next)]
    ensures Bucket(m', mask, own, i, m[he].next, rest[1..])
    ensures Waiting(m', mask, own, table, cs, i + 1) && Keyed(m', own) && Relinked(m, m')
  {
    hide Bucket, Index;
    BucketHead(m, mask, own, i, he, rest);
    BucketFrame(m, m', mask, own, own, i, m[he].next, rest[1..]);
    forall i' | i < i' < |cs| ensures Bucket(m', mask, own, i', table[i'], cs[i']) {
      if he in cs[i'] { BucketMember(m, mask, own, i', table[i'], cs[i'], he); }
      BucketFrame(m, m', mask, own, own, i', table[i'], cs[i']);
    }
  }

  lemma MovedOne(m: Memory, mask: nat, own: map<Key, Ptr>, nown: map<Key, Ptr>, i: nat, rest: seq<Ptr>)
    requires Moved(mask, own, nown, i, rest) && Keyed(m, own) && rest != [] && rest[0] !in rest[1..]
    requires Owned(m, own, rest[0]) && Index(m[rest[0]].key, mask) == i
    ensures Moved(mask, own, nown[m[rest[0]].key := rest[0]], i, rest[1..])
    ensures m[rest[0]].key !in nown && (forall k :: k in nown ==> nown[k] != rest[0])
    ensures Gained(own, nown, nown[m[rest[0]].key := rest[0]])
  {
    var key := m[rest[0]].key;
    assert nown[key := rest[0]].Keys == nown.Keys + {key};
    assert forall p :: p in rest <==> p == rest[0] || p in rest[1..];
  }

  lemma GainedCount(own: map<Key, Ptr>, nown: map<Key, Ptr>, nown': map<Key, Ptr>)
    requires Gained(own, nown, nown')
    ensures forall n: nat :: Remaining(own, nown, n) ==> n > 0 && Remaining(own, nown', n - 1)
  {
    var key :| key in own && key !in nown && nown'.Keys == nown.Keys + {key};
    CountDown(own.Keys, nown.Keys, key);
  }

  lemma CountDown<T>(a: set<T>, b: set<T>, x: T)
    requires x in a && x !in b
    ensures |a - b| == |a - (b + {x})| + 1
  {
    assert a - b == (a - (b + {x})) + {x};
  }

  /** A state inside the inner loop of rehashing: `rest` is what is left of bucket `i`. */
  ghost predicate Midway(m: Memory, mask: nat, own: map<Key, Ptr>, table: seq<Ptr>, cs: Chains, i: nat,
                         he: Ptr, rest: seq<Ptr>, nown: map<Key, Ptr>, ntable: seq<Ptr>, ncs: Chains) {
    && Bucket(m, mask, own, i, he, rest)
    && Waiting(m, mask, own, table, cs, i + 1)
    && Keyed(m, own)
    && Homes(mask, own, cs)
    && Moved(mask, own, nown, i, rest)
    && ntable != [] && Holds(m, |ntable| - 1, nown, ntable, ncs)
  }

  /** Every entry is in the old bucket of its masked hash. */
  ghost predicate Homes(mask: nat, own: map<Key, Ptr>, cs: Chains) {
    forall k :: k in own ==> Index(k, mask) < |cs| && own[k] in cs[Index(k, mask)]
  }

  lemma MidwayEmpty(m: Memory, mask: nat, own: map<Key, Ptr>, table: seq<Ptr>, cs: Chains, i: nat,
                    he: Ptr, rest: seq<Ptr>, nown: map<Key, Ptr>, ntable: seq<Ptr>, ncs: Chains)
    requires Midway(m, mask, own, table, cs, i, he, rest, nown, ntable, ncs)
    ensures he == NULL <==> rest == []
  {
    hide Holds, Moved, Keyed, Waiting;
  }

  /** A state of the outer loop of rehashing: buckets before `i` have moved. */
  ghost predicate Between(m: Memory, mask: nat, own: map<Key, Ptr>, table: seq<Ptr>, cs: Chains, i: nat,
                          nown: map<Key, Ptr>, ntable: seq<Ptr>, ncs: Chains) {
    if i < |cs| then i < |table| && Midway(m, mask, own, table, cs, i, table[i], cs[i], nown, ntable, ncs)
    else nown == own && Keyed(m, own) && ntable != [] && Holds(m, |ntable| - 1, own, ntable, ncs)
  }

  /** calloc: a cleared bucket array. */
  function Nulls(n: nat): (t: seq<Ptr>)
    ensures |t| == n && forall i :: 0 <= i < n ==> t[i] == NULL
  {
    seq(n, _ => NULL)
  }

  ghost function Empties(n: nat): (cs: Chains)
    ensures |cs| == n && forall i :: 0 <= i < n ==> cs[i] == []
  {
    seq(n, _ => [])
  }

  lemma BeforeRehash(m: Memory, mask: nat, own: map<Key, Ptr>, table: seq<Ptr>, cs: Chains,
                     ntable: seq<Ptr>, ncs: Chains)
    requires Keyed(m, own) && Holds(m, mask, own, table, cs)
    requires ntable != [] && ntable == Nulls(|ntable|) && ncs == Empties(|ntable|)
    ensures Between(m, mask, own, table, cs, 0, map[], ntable, ncs) && Remaining(own, map[], |own.Keys|)
  {
    var none: map<Key, Ptr> := map[];
    assert own.Keys - none.Keys == own.Keys;
    forall k | k in own ensures Index(k, mask) < |cs| && own[k] in cs[Index(k, mask)] {
      assert Placed(m, mask, own, cs, k);
    }
    assert |cs| == 0 ==> own == map[];
  }

  lemma BetweenIsMidway(m: Memory, mask: nat, own: map<Key, Ptr>, table: seq<Ptr>, cs: Chains, i: nat,
                        nown: map<Key, Ptr>, ntable: seq<Ptr>, ncs: Chains)
    requires Between(m, mask, own, table, cs, i, nown, ntable, ncs) && i < |cs| && i < |table|
    ensures Midway(m, mask, own, table, cs, i, table[i], cs[i], nown, ntable, ncs)
  {
  }

  lemma RelinkedReflexive(m: Memory)
    ensures Relinked(m, m)
  {
  }

  lemma RelinkedTransitive(a: Memory, b: Memory, c: Memory)
    requires Relinked(a, b) && Relinked(b, c)
    ensures Relinked(a, c)
  {
  }

  lemma HoldsShape(m: Memory, mask: nat, own: map<Key, Ptr>, table: seq<Ptr>, cs: Chains)
    requires Holds(m, mask, own, table, cs)
    ensures |cs| == |table|
  {
  }

  lemma NextBucket(m: Memory, mask: nat, own: map<Key, Ptr>, table: seq<Ptr>, cs: Chains, i: nat,
                   nown: map<Key, Ptr>, ntable: seq<Ptr>, ncs: Chains)
    requires Midway(m, mask, own, table, cs, i, NULL, [], nown, ntable, ncs)
    ensures Between(m, mask, own, table, cs, i + 1, nown, ntable, ncs)
  {
    hide Holds, Keyed, Bucket;
    if i + 1 >= |cs| { assert nown == own; }
  }

  lemma AfterRehash(m: Memory, mask: nat, own: map<Key, Ptr>, table: seq<Ptr>, cs: Chains, i: nat,
                    nown: map<Key, Ptr>, ntable: seq<Ptr>, ncs: Chains, left: nat)
    requires Between(m, mask, own, table, cs, i, nown, ntable, ncs)
    requires Remaining(own, nown, left) && (i >= |cs| || left == 0)
    ensures Keyed(m, own) && ntable != [] && Holds(m, |ntable| - 1, own, ntable, ncs) && left == 0
  {
    hide Holds, Keyed, Bucket;
    if i >= |cs| {
      assert own.Keys - nown.Keys == {};
    } else {
      EmptyDifference(own.Keys, nown.Keys);
      assert nown == own;
    }
  }

  lemma EmptyDifference<T>(a: set<T>, b: set<T>)
    requires |a - b| == 0
    ensures a <= b
  {
    forall x | x in a ensures x in b { assert a - b == {}; assert x !in a - b; }
  }

  // ---- The table --------------------------------------------------------------------------------

  class Dict {
    var mem: Memory
    var table: seq<Ptr>
    var size: nat
    var sizemask: nat
    var used: nat
    ghost var chains: Chains           // the nodes of each bucket, front to back
    ghost var own: map<Key, Ptr>       // the entry of every key

    constructor ()
      ensures Valid() && Contents() == map[]
    {
      mem, table, size, sizemask, used := map[], [], 0, 0, 0;
      chains, own := [], map[];
    }

    ghost predicate Valid()
      reads this
    {
      && |table| == size
      && (size == 0 || (IsPow2(size) && sizemask == size - 1))
      && used == |own.Keys| && used <= size
      && Keyed(mem, own)
      && Holds(mem, sizemask, own, table, chains)
    }

    /** The finite map the table stands for. */
    ghost function Contents(): map<Key, Callback>
      requires Keyed(mem, own)
      reads this
    {
      Values(mem, own)
    }

    function BucketOf(key: Key): (h: nat)
      requires size > 0 && sizemask == size - 1
      reads this
      ensures h < size && h == Index(key, sizemask)
    {
      AndBound(Hash(key), sizemask);
      Index(key, sizemask)
    }

    /** Walks bucket `h` to the entry of `key`; the loop of dictFind and _dictKeyIndex. */
    method Search(h: nat, key: Key) returns (he: Ptr)
      requires Valid() && h < size && h == Index(key, sizemask)
      ensures he == NULL <==> key !in own
      ensures he != NULL ==> key in own && he == own[key]
    {
      he := table[h];
      ghost var c := chains[h];
      while he != NULL
        invariant Bucket(mem, sizemask, own, h, he, c)
        invariant key in own ==> own[key] in c
        decreases |c|
      {
        if mem[he].key == key {
          return;
        }
        he := mem[he].next;
        c := c[1..];
      }
    }

    /** dictFind: the entry of a key, NULL exactly when the map has none. */
    method Find(key: Key) returns (he: Ptr)
      requires Valid()
      ensures he == NULL <==> key !in Contents()
      ensures he != NULL ==> he in mem && mem[he].key == key && mem[he].val == Contents()[key]
    {
      if size == 0 {
        return NULL;
      }
      he := Search(BucketOf(key), key);
    }

    /** One turn of the inner loop of dictExpand: pushes the front entry of old bucket `i` on the new table. */
    method MoveEntry(i: nat, he: Ptr, ghost rest: seq<Ptr>, ntable: seq<Ptr>, ghost ncs: Chains,
                     ghost nown: map<Key, Ptr>)
      returns (nextHe: Ptr, ntable': seq<Ptr>, ghost ncs': Chains, ghost nown': map<Key, Ptr>)
      requires rest != [] && Midway(mem, sizemask, own, table, chains, i, he, rest, nown, ntable, ncs)
      modifies this`mem
      ensures Midway(mem, sizemask, own, table, chains, i, nextHe, rest[1..], nown', ntable', ncs')
      ensures Relinked(old(mem), mem) && Gained(own, nown, nown') && |ntable'| == |ntable|
    {
      hide Bucket, Holds, Waiting, Moved, Keyed, Homes, And, Hash, Relinked, Gained;
      BucketHead(mem, sizemask, own, i, he, rest);
      nextHe := mem[he].next;
      var key := mem[he].key;
      AndBound(Hash(key), |ntable| - 1);
      var h := Index(key, |ntable| - 1);
      ghost var was := mem;
      mem := mem[he := mem[he].(next := ntable[h])];
      ntable' := ntable[h := he];
      RelinkKeeps(was, mem, sizemask, own, table, chains, i, he, rest);
      MovedOne(was, sizemask, own, nown, i, rest);
      PushKeeps(was, mem, |ntable| - 1, nown, ntable, ncs, h, he, key);
      ncs', nown' := ncs[h := [he] + ncs[h]], nown[key := he];
    }

    /** The inner loop of dictExpand: moves old bucket `i`. */
    method MoveBucket(i: nat, left: nat, ntable: seq<Ptr>, ghost ncs: Chains, ghost nown: map<Key, Ptr>,
                      ghost base: Memory)
      returns (left': nat, ntable': seq<Ptr>, ghost ncs': Chains, ghost nown': map<Key, Ptr>)
      requires i < |table| == |chains| && Remaining(own, nown, left) && Relinked(base, mem)
      requires Between(mem, sizemask, own, table, chains, i, nown, ntable, ncs)
      modifies this`mem
      ensures Between(mem, sizemask, own, table, chains, i + 1, nown', ntable', ncs')
      ensures Relinked(base, mem) && Remaining(own, nown', left') && |ntable'| == |ntable|
    {
      hide Midway, Gained, Between, Relinked, Remaining;
      BetweenIsMidway(mem, sizemask, own, table, chains, i, nown, ntable, ncs);
      var he := table[i];
      ghost var rest := chains[i];
      left', ntable', ncs', nown' := left, ntable, ncs, nown;
      while he != NULL
        invariant Midway(mem, sizemask, own, table, chains, i, he, rest, nown', ntable', ncs')
        invariant Relinked(base, mem) && Remaining(own, nown', left') && |ntable'| == |ntable|
        decreases |rest|
      {
        MidwayEmpty(mem, sizemask, own, table, chains, i, he, rest, nown', ntable', ncs');
        ghost var was, before := nown', mem;
        he, ntable', ncs', nown' := MoveEntry(i, he, rest, ntable', ncs', nown');
        GainedCount(own, was, nown');
        RelinkedTransitive(base, before, mem);
        left' := left' - 1;
        rest := rest[1..];
      }
      MidwayEmpty(mem, sizemask, own, table, chains, i, he, rest, nown', ntable', ncs');
      NextBucket(mem, sizemask, own, table, chains, i, nown', ntable', ncs');
    }

    /** The outer loop of dictExpand: every entry ends up in a new table of `realsize` buckets. */
    method Rehash(realsize: nat) returns (ntable: seq<Ptr>, ghost ncs: Chains)
      requires Keyed(mem, own) && Holds(mem, sizemask, own, table, chains)
      requires realsize > 0 && size == |table| && used == |own.Keys|
      modifies this`mem
      ensures |ntable| == realsize && Holds(mem, realsize - 1, own, ntable, ncs)
      ensures Keyed(mem, own) && Relinked(old(mem), mem)
    {
      hide Midway, Holds, Keyed, Between, Relinked, Index, Nulls, Empties, Remaining;
      HoldsShape(mem, sizemask, own, table, chains);
      RelinkedReflexive(mem);
      ntable, ncs := Nulls(realsize), Empties(realsize);
      ghost var nown: map<Key, Ptr> := map[];
      BeforeRehash(mem, sizemask, own, table, chains, ntable, ncs);
      var left, i := used, 0;
      while i < size && left > 0
        invariant 0 <= i <= size && |ntable| == realsize && Remaining(own, nown, left) && Relinked(old(mem), mem)
        invariant Between(mem, sizemask, own, table, chains, i, nown, ntable, ncs)
        decreases size - i
      {
        left, ntable, ncs, nown := MoveBucket(i, left, ntable, ncs, nown, old(mem));
        i := i + 1;
      }
      AfterRehash(mem, sizemask, own, table, chains, i, nown, ntable, ncs, left);
      assert left == 0;
    }

    /** dictExpand: relinks every entry into a bucket array of the next power of two. */
    method Expand(newSize: nat) returns (ok: bool)
      requires Valid()
      modifies this
      ensures ok <==> old(used) <= newSize
      ensures Valid() && own == old(own) && Relinked(old(mem), mem)
      ensures !ok ==> table == old(table) && chains == old(chains) && size == old(size)
      ensures ok ==> size >= newSize && size >= INITIAL_SIZE
    {
      hide Holds, Keyed, IsPow2, Relinked;
      var realsize := NextPower(newSize);
      if used > newSize {
        RelinkedReflexive(mem);
        return false;
      }
      var ntable;
      ghost var ncs;
      ntable, ncs := Rehash(realsize);
      table, size, sizemask, chains := ntable, realsize, realsize - 1, ncs;
      ok := true;
    }

    /** _dictKeyIndex: grows the table if it is full, then gives the bucket of a new key, None for a present one. */
    method KeyIndex(key: Key) returns (index: Option<nat>)
      requires Valid()
      modifies this
      ensures Valid() && own == old(own) && Relinked(old(mem), mem) && used < size
      ensures index.None? <==> key in own
      ensures index.Some? ==> index.value == Index(key, sizemask) < size
    {
      hide Holds, Hash, And, IsPow2, Keyed, Relinked;
      RelinkedReflexive(mem);
      if size == 0 {
        var grown := Expand(INITIAL_SIZE);
      } else if used == size {
        var grown := Expand(size * 2);
      }
      var h := BucketOf(key);
      var he := Search(h, key);
      index := if he != NULL then None else Some(h);
    }

    /** dictAdd: fails on a key that is present, after the same growth check. The entry is allocated at `addr`. */
    method Add(key: Key, val: Callback, addr: Ptr) returns (ok: bool)
      requires Valid() && addr != NULL && addr !in mem
      modifies this
      ensures Valid() && (ok <==> key !in old(Contents()))
      ensures Contents() == if ok then old(Contents())[key := val] else old(Contents())
    {
      hide Holds, Index, IsPow2, Keyed, Values;
      ghost var m0 := mem;
      var index := KeyIndex(key);
      SameValues(m0, mem, own);
      if index.None? {
        return false;
      }
      ghost var was, own0 := mem, own;
      mem := mem[addr := Entry(key, val, table[index.value])];
      KeyedAdd(was, own, key, addr, mem[addr]);
      PushKeeps(was, mem, sizemask, own, table, chains, index.value, addr, key);
      HoldsShape(was, sizemask, own, table, chains);
      table := table[index.value := addr];
      used := used + 1;
      chains, own := chains[index.value := [addr] + chains[index.value]], own[key := addr];
      assert own.Keys == own0.Keys + {key};
      ok := true;
    }

    /** dictReplace: adds the key, or overwrites the value of the entry that is there. */
    method Replace(key: Key, val: Callback, addr: Ptr) returns (added: bool)
      requires Valid() && addr != NULL && addr !in mem
      modifies this
      ensures Valid() && (added <==> key !in old(Contents()))
      ensures Contents() == old(Contents())[key := val]
    {
      hide Holds, IsPow2, Keyed, Values;
      added := Add(key, val, addr);
      if added {
        return;
      }
      var entry := Find(key);
      ghost var was := mem;
      mem := mem[entry := mem[entry].(val := val)];
      SetValue(was, sizemask, own, table, chains, entry, val);
    }

    /** The loop of dictDelete: the entry of `key` in bucket `h` and the one before it. */
    method Locate(h: nat, key: Key) returns (de: Ptr, prevde: Ptr, ghost j: nat)
      requires Valid() && h < size && h == Index(key, sizemask)
      ensures |chains| == size && (de == NULL <==> key !in own)
      ensures de != NULL ==> j < |chains[h]| && de == chains[h][j] == own[key] && de in mem
      ensures de != NULL ==>
          if j == 0 then prevde == NULL else prevde == chains[h][j - 1] && prevde != NULL && prevde in mem
    {
      hide Holds, IsPow2, Keyed, Index, Bucket;
      de, prevde, j := table[h], NULL, 0;
      HoldsBucket(mem, sizemask, own, table, chains, h, key);
      ghost var c := chains[h];
      assert c[0..] == c;
      if key in own { KeyOf(mem, own, key); }
      while de != NULL
        invariant 0 <= j <= |c| && Bucket(mem, sizemask, own, h, de, c[j..])
        invariant if j == 0 then prevde == NULL else prevde == c[j - 1] && prevde != NULL && prevde in mem
        invariant key in own ==> own[key] in c[j..]
        decreases |c| - j
      {
        BucketNonEmpty(mem, sizemask, own, h, de, c[j..]);
        BucketHead(mem, sizemask, own, h, de, c[j..]);
        if mem[de].key == key {
          return;
        }
        prevde := de;
        de := mem[de].next;
        assert c[j..][1..] == c[j + 1..];
        j := j + 1;
      }
      BucketNonEmpty(mem, sizemask, own, h, de, c[j..]);
    }

    /** dictDelete: unlinks the entry of a key and frees it. */
    method Delete(key: Key) returns (ok: bool)
      requires Valid()
      modifies this
      ensures Valid() && (ok <==> key in old(Contents())) && Contents() == old(Contents()) - {key}
      ensures size == old(size) && (!ok ==> chains == old(chains))
      ensures ok ==> Frees(old(chains), chains, old(own[key]))
      ensures forall p :: p in mem ==> p in old(mem) && mem[p].key == old(mem[p].key)
    {
      hide Holds, IsPow2, Keyed, Values, Index, Unlinked;
      DeleteAbsent(mem, own, key);
      if size == 0 {
        assert own.Keys == {};
        return false;
      }
      var h := BucketOf(key);
      var de, prevde;
      ghost var j;
      de, prevde, j := Locate(h, key);
      if de == NULL {
        return false;
      }
      Unlink(h, key, de, prevde, j);
      ok := true;
    }

    method Unlink(h: nat, key: Key, de: Ptr, prevde: Ptr, ghost j: nat)
      requires Valid() && h < size == |chains| && key in own && j < |chains[h]| && de == chains[h][j] == own[key]
          && de in mem
      requires if j == 0 then prevde == NULL else prevde == chains[h][j - 1] && prevde != NULL && prevde in mem
      modifies this
      ensures Valid() && Contents() == old(Contents()) - {key} && size == old(size)
      ensures Frees(old(chains), chains, de)
      ensures forall p :: p in mem ==> p in old(mem) && mem[p].key == old(mem[p].key)
    {
      hide Holds, IsPow2, Keyed, Values, Frees;
      ghost var c := chains[h];
      AfterUnlink(mem, sizemask, own, table, chains, h, j, key);
      var next := mem[de].next;
      if prevde != NULL {
        mem := mem[prevde := mem[prevde].(next := next)];
      } else {
        table := table[h := next];
      }
      mem := mem - {de};
      used := used - 1;
      chains, own := chains[h := c[..j] + c[j + 1..]], own - {key};
      assert table == old(table)[h := if j == 0 then next else old(table)[h]];
    }
  }

  // ---- Iteration ----------------------------------------------------------------------------------

  ghost function Flatten(cs: Chains): seq<Ptr> {
    if cs == [] then [] else cs[0] + Flatten(cs[1..])
  }

  ghost predicate Suffix(rest: seq<Ptr>, c: seq<Ptr>) { |rest| <= |c| && c[|c| - |rest|..] == rest }

  ghost function First(c: seq<Ptr>): Ptr { if c == [] then NULL else c[0] }

  /** What an iterator has still to visit: the rest of its bucket, then the buckets after it. */
  ghost function Pending(cs: Chains, index: int, rest: seq<Ptr>): seq<Ptr>
    requires -1 <= index
  {
    rest + if index + 1 < |cs| then Flatten(cs[index + 1..]) else []
  }

  lemma NoneVisited(cs: Chains)
    ensures Pending(cs, -1, []) == Flatten(cs)
  {
    assert cs[0..] == cs;
  }

  lemma AllVisited(cs: Chains, index: int)
    requires |cs| - 1 <= index && -1 <= index
    ensures Pending(cs, index, []) == Pending(cs, index + 1, []) == []
  {
  }

  lemma TakeOne(cs: Chains, index: int, rest: seq<Ptr>)
    requires -1 <= index && rest != []
    ensures Pending(cs, index, rest) == [rest[0]] + Pending(cs, index, rest[1..])
  {
  }

  lemma EnterBucket(cs: Chains, index: int)
    requires -1 <= index < |cs| - 1
    ensures Pending(cs, index, []) == Pending(cs, index + 1, cs[index + 1])
  {
    assert cs[index + 1..][0] == cs[index + 1] && cs[index + 1..][1..] == cs[index + 2..];
  }

  lemma {:induction false} BucketSuffix(m: Memory, mask: nat, own: map<Key, Ptr>, i: nat, head: Ptr, c: seq<Ptr>,
                                        rest: seq<Ptr>)
    requires Bucket(m, mask, own, i, head, c) && Suffix(rest, c)
    ensures Bucket(m, mask, own, i, First(rest), rest)
    decreases |c|
  {
    hide Index;
    if |rest| < |c| {
      assert c[1..][|c| - 1 - |rest|..] == rest;
      BucketSuffix(m, mask, own, i, m[head].next, c[1..], rest);
    } else {
      assert rest == c;
    }
  }

  lemma FollowLink(m: Memory, mask: nat, own: map<Key, Ptr>, table: seq<Ptr>, cs: Chains, i: nat, rest: seq<Ptr>)
    requires Holds(m, mask, own, table, cs) && i < |cs| && Suffix(rest, cs[i])
    ensures rest == [] <==> First(rest) == NULL
    ensures rest != [] ==>
        First(rest) == rest[0] && rest[0] in m && m[rest[0]].next == First(rest[1..])
        && Suffix(rest[1..], cs[i])
  {
    hide Index, Placed;
    BucketSuffix(m, mask, own, i, table[i], cs[i], rest);
  }

  lemma BucketFirst(m: Memory, mask: nat, own: map<Key, Ptr>, table: seq<Ptr>, cs: Chains, i: nat)
    requires Holds(m, mask, own, table, cs) && i < |cs|
    ensures i < |table| && table[i] == First(cs[i]) && Suffix(cs[i], cs[i])
  {
    hide Index, Placed;
  }

  class Iterator {
    const ht: Dict
    var index: int
    var entry: Ptr
    var nextEntry: Ptr
    ghost var rest: seq<Ptr>       // what follows `entry` in its bucket

    constructor (ht: Dict)
      requires ht.Valid()
      ensures this.ht == ht && Valid() && Todo() == Flatten(ht.chains)
    {
      hide IsPow2, Keyed, Holds, Flatten, Suffix, Pending;
      this.ht := ht;
      index, entry, nextEntry, rest := -1, NULL, NULL, [];
      new;
      HoldsShape(ht.mem, ht.sizemask, ht.own, ht.table, ht.chains);
      NoneVisited(ht.chains);
    }

    /** The saved successor starts the rest of the bucket, whether or not the entry handed out last is
        still there. */
    ghost predicate Valid()
      reads this, ht
    {
      && |ht.chains| == ht.size && -1 <= index
      && (if entry == NULL then rest == [] else
          0 <= index < |ht.chains| && Suffix(rest, ht.chains[index]) && nextEntry == First(rest))
    }

    /** The entries still to be visited, in order. */
    ghost function Todo(): seq<Ptr>
      requires Valid()
      reads this, ht
    {
      Pending(ht.chains, index, rest)
    }

    /** dictNext: the next entry, NULL when all have been visited. */
    method Next() returns (r: Ptr)
      requires ht.Valid() && Valid()
      modifies this
      ensures Valid() && (r == NULL <==> old(Todo()) == [])
      ensures r != NULL ==>
          r == entry && r in ht.mem && old(Todo()) == [r] + Todo() && index < ht.size
          && Suffix([r] + rest, ht.chains[index])
    {
      hide IsPow2, Keyed, Holds, Flatten, Suffix, First, Pending;
      while true
        invariant Valid() && Todo() == old(Todo())
        decreases ht.size - index, if entry == NULL then 0 else 1
      {
        if entry == NULL {
          if index + 1 >= ht.size {
            AllVisited(ht.chains, index);
            index := index + 1;
            return NULL;
          }
          EnterBucket(ht.chains, index);
          index := index + 1;
          entry := ht.table[index];
          rest := ht.chains[index];
          BucketFirst(ht.mem, ht.sizemask, ht.own, ht.table, ht.chains, index);
        } else {
          entry := nextEntry;
        }
        FollowLink(ht.mem, ht.sizemask, ht.own, ht.table, ht.chains, index, rest);
        if entry != NULL {
          nextEntry := ht.mem[entry].next;
          assert rest == [entry] + rest[1..];
          TakeOne(ht.chains, index, rest);
          rest := rest[1..];
          return entry;
        }
      }
    }
  }

  ghost predicate Distinct<T>(s: seq<T>) { s == [] || (s[0] !in s[1..] && Distinct(s[1..])) }

  function KeysOf(m: Memory, ps: seq<Ptr>): seq<Key>
    requires forall p :: p in ps ==> p in m
  {
    if ps == [] then [] else [m[ps[0]].key] + KeysOf(m, ps[1..])
  }

  lemma {:induction false} KeysOfSnoc(m: Memory, ps: seq<Ptr>, p: Ptr)
    requires p in m && forall q :: q in ps ==> q in m
    ensures KeysOf(m, ps + [p]) == KeysOf(m, ps) + [m[p].key]
  {
    if ps != [] {
      assert (ps + [p])[1..] == ps[1..] + [p];
      KeysOfSnoc(m, ps[1..], p);
    }
  }

  /** Deleting the entry just handed out leaves the iterator where it was. */
  lemma FreeCurrent(m: Memory, mask: nat, own: map<Key, Ptr>, table: seq<Ptr>, cs: Chains, cs': Chains, i: nat,
                    e: Ptr, rest: seq<Ptr>)
    requires Holds(m, mask, own, table, cs) && i < |cs| && Suffix([e] + rest, cs[i]) && Frees(cs, cs', e)
    ensures |cs'| == |cs| && Suffix(rest, cs'[i]) && Pending(cs', i, rest) == Pending(cs, i, rest)
  {
    hide Holds, Suffix, Flatten;
    var h, j :| 0 <= h < |cs| && 0 <= j < |cs[h]| && cs[h][j] == e && cs' == cs[h := cs[h][..j] + cs[h][j + 1..]];
    var k := SuffixHead(cs[i], e, rest);
    OnePlace(m, mask, own, table, cs, h, j, i, k);
    assert cs'[i + 1..] == cs[i + 1..];
  }

  lemma SuffixHead(c: seq<Ptr>, e: Ptr, rest: seq<Ptr>) returns (k: nat)
    requires Suffix([e] + rest, c)
    ensures k < |c| && c[k] == e && Suffix(rest, c[..k] + c[k + 1..])
  {
    k := |c| - |rest| - 1;
    assert c[k..] == [e] + rest;
    assert c[k] == c[k..][0];
    assert c[k + 1..] == rest;
  }

  lemma OnePlace(m: Memory, mask: nat, own: map<Key, Ptr>, table: seq<Ptr>, cs: Chains, h: nat, j: nat, i: nat, k: nat)
    requires Holds(m, mask, own, table, cs) && h < |cs| && i < |cs| && j < |cs[h]| && k < |cs[i]|
        && cs[h][j] == cs[i][k]
    ensures h == i && j == k
  {
    hide Index, Placed, Bucket;
    BucketMember(m, mask, own, h, table[h], cs[h], cs[h][j]);
    BucketMember(m, mask, own, i, table[i], cs[i], cs[i][k]);
    BucketDistinct(m, mask, own, i, table[i], cs[i], j, k);
  }

  lemma {:induction false} BucketDistinct(m: Memory, mask: nat, own: map<Key, Ptr>, i: nat, head: Ptr, c: seq<Ptr>,
                                          a: nat, b: nat)
    requires Bucket(m, mask, own, i, head, c) && a < |c| && b < |c| && c[a] == c[b]
    ensures a == b
    decreases |c|
  {
    hide Index;
    assert forall x :: 1 <= x < |c| ==> c[1..][x - 1] == c[x];
    if a > 0 && b > 0 {
      BucketDistinct(m, mask, own, i, m[head].next, c[1..], a - 1, b - 1);
    }
  }

  lemma {:induction false} BucketKeys(m: Memory, mask: nat, own: map<Key, Ptr>, i: nat, head: Ptr, c: seq<Ptr>,
                                      more: seq<Ptr>)
    requires Bucket(m, mask, own, i, head, c)
    requires forall p :: p in more ==> p in m && Index(m[p].key, mask) > i
    requires Distinct(KeysOf(m, more))
    ensures forall p :: p in c + more ==> p in m && Index(m[p].key, mask) >= i
    ensures Distinct(KeysOf(m, c + more))
    decreases |c|
  {
    hide Index;
    if c == [] {
      assert c + more == more;
    } else {
      var p := c[0];
      BucketKeys(m, mask, own, i, m[head].next, c[1..], more);
      assert c + more == [p] + (c[1..] + more);
      if m[p].key in KeysOf(m, c[1..] + more) {
        var q := KeysFrom(m, c[1..] + more, m[p].key);
        if q in c[1..] { BucketMember(m, mask, own, i, m[head].next, c[1..], q); }
      }
    }
  }

  lemma {:induction false} KeysFrom(m: Memory, ps: seq<Ptr>, k: Key) returns (q: Ptr)
    requires (forall p :: p in ps ==> p in m) && k in KeysOf(m, ps)
    ensures q in ps && m[q].key == k
  {
    q := ps[0];
    if m[q].key != k { q := KeysFrom(m, ps[1..], k); }
  }

  lemma {:induction false} KeysTo(m: Memory, ps: seq<Ptr>, q: Ptr)
    requires (forall p :: p in ps ==> p in m) && q in ps
    ensures m[q].key in KeysOf(m, ps)
  {
    if q != ps[0] { KeysTo(m, ps[1..], q); }
  }

  lemma {:induction false} FlattenKeys(m: Memory, mask: nat, own: map<Key, Ptr>, table: seq<Ptr>, cs: Chains, i: nat)
    requires Holds(m, mask, own, table, cs) && i <= |cs|
    ensures forall p :: p in Flatten(cs[i..]) ==> p in m && Index(m[p].key, mask) >= i
    ensures Distinct(KeysOf(m, Flatten(cs[i..])))
    decreases |cs| - i
  {
    hide Index, Placed;
    if i < |cs| {
      FlattenKeys(m, mask, own, table, cs, i + 1);
      assert cs[i..][1..] == cs[i + 1..];
      BucketKeys(m, mask, own, i, table[i], cs[i], Flatten(cs[i + 1..]));
    }
  }

  lemma {:induction false} InFlatten(cs: Chains, i: nat, p: Ptr)
    requires i < |cs| && p in cs[i]
    ensures p in Flatten(cs)
  {
    if i > 0 { InFlatten(cs[1..], i - 1, p); }
  }

  /** Read bucket by bucket, the table gives every key of the map exactly once. */
  lemma EachKeyOnce(m: Memory, mask: nat, own: map<Key, Ptr>, table: seq<Ptr>, cs: Chains)
    requires Holds(m, mask, own, table, cs) && Keyed(m, own)
    ensures forall p :: p in Flatten(cs) ==> p in m
    ensures Distinct(KeysOf(m, Flatten(cs)))
    ensures forall k :: k in KeysOf(m, Flatten(cs)) <==> k in own
  {
    hide Index;
    FlattenKeys(m, mask, own, table, cs, 0);
    assert cs[0..] == cs;
    forall k ensures k in KeysOf(m, Flatten(cs)) <==> k in own {
      if k in own {
        assert Placed(m, mask, own, cs, k);
        InFlatten(cs, Index(k, mask), own[k]);
        KeysTo(m, Flatten(cs), own[k]);
      }
      if k in KeysOf(m, Flatten(cs)) {
        var q := KeysFrom(m, Flatten(cs), k);
      }
    }
  }

  ghost function Dropped(visited: seq<Key>, drop: set<Key>): set<Key> { set k | k in visited && k in drop }

  lemma DroppedMore(contents: map<Key, Callback>, visited: seq<Key>, key: Key, drop: set<Key>)
    ensures contents - Dropped(visited, drop) - (if key in drop then {key} else {})
            == contents - Dropped(visited + [key], drop)
  {
  }

  lemma DroppedAll(contents: map<Key, Callback>, visited: seq<Key>, drop: set<Key>)
    ensures (forall k :: k in contents ==> k in visited) ==> contents - Dropped(visited, drop) == contents - drop
    ensures contents - Dropped([], drop) == contents
  {
  }

  /** The first `|visited|` of the entries `all` have been visited, in order. */
  ghost predicate Progress(m: Memory, all: seq<Ptr>, visited: seq<Key>, todo: seq<Ptr>) {
    && (forall p :: p in all ==> p in m) && |visited| <= |all|
    && todo == all[|visited|..] && visited == KeysOf(m, all[..|visited|])
  }

  lemma ProgressStart(m: Memory, all: seq<Ptr>)
    requires forall p :: p in all ==> p in m
    ensures Progress(m, all, [], all)
  {
    assert all[..0] == [] && all[0..] == all;
  }

  lemma ProgressStep(m: Memory, all: seq<Ptr>, visited: seq<Key>, e: Ptr, todo: seq<Ptr>)
    requires Progress(m, all, visited, [e] + todo)
    ensures e in m && |visited| < |all| && Progress(m, all, visited + [m[e].key], todo)
  {
    var n := |visited|;
    assert all[n..] == [e] + todo;
    assert all[n] == e;
    assert all[..n + 1] == all[..n] + [e] && all[n + 1..] == todo;
    KeysOfSnoc(m, all[..n], e);
  }

  lemma ProgressEnd(m: Memory, all: seq<Ptr>, visited: seq<Key>)
    requires Progress(m, all, visited, [])
    ensures visited == KeysOf(m, all)
  {
    assert all[..|all|] == all;
  }

  /** Nothing was allocated, and what is left has its key. */
  ghost predicate Within(m: Memory, m0: Memory) { forall p :: p in m ==> p in m0 && m[p].key == m0[p].key }

  lemma WithinStart(m: Memory)
    ensures Within(m, m)
  {
  }

  lemma WithinMore(m': Memory, m: Memory, m0: Memory, p: Ptr)
    requires Within(m', m) && Within(m, m0) && p in m
    ensures Within(m', m0) && p in m0 && m[p].key == m0[p].key
  {
  }

  /** Deletes the entry just handed out. */
  method DropCurrent(it: Iterator, key: Key)
    requires it.ht.Valid() && it.Valid() && it.entry in it.ht.mem && it.entry != NULL && it.ht.mem[it.entry].key == key
    requires it.index >= 0 && Suffix([it.entry] + it.rest, it.ht.chains[it.index])
    modifies it.ht
    ensures it.ht.Valid() && it.Valid() && it.Todo() == old(it.Todo())
    ensures it.ht.Contents() == old(it.ht.Contents()) - {key}
    ensures Within(it.ht.mem, old(it.ht.mem))
  {
    hide IsPow2, Keyed, Holds, Suffix, Pending, Values, Frees;
    var ht := it.ht;
    ghost var m, mask, own, table, cs := ht.mem, ht.sizemask, ht.own, ht.table, ht.chains;
    OwnedKey(m, own, it.entry);
    var ok := ht.Delete(key);
    FreeCurrent(m, mask, own, table, cs, ht.chains, it.index, it.entry, it.rest);
  }

  lemma OwnedKey(m: Memory, own: map<Key, Ptr>, p: Ptr)
    requires Keyed(m, own) && p in m
    ensures m[p].key in own && own[m[p].key] == p && m[p].key in Values(m, own)
  {
  }

  lemma SameKeys(m: Memory, own: map<Key, Ptr>)
    requires Keyed(m, own)
    ensures Values(m, own).Keys == own.Keys
  {
  }

  /** One turn of an iteration that deletes the entries of `drop` as it is handed them. */
  method VisitOne(it: Iterator, drop: set<Key>) returns (e: Ptr, key: Key)
    requires it.ht.Valid() && it.Valid()
    modifies it, it.ht
    ensures it.ht.Valid() && it.Valid() && Within(it.ht.mem, old(it.ht.mem)) && (e == NULL <==> old(it.Todo()) == [])
    ensures e == NULL ==> it.ht.Contents() == old(it.ht.Contents())
    ensures e != NULL ==> e in old(it.ht.mem) && key == old(it.ht.mem)[e].key && old(it.Todo()) == [e] + it.Todo()
    ensures e != NULL ==> it.ht.Contents() == old(it.ht.Contents()) - if key in drop then {key} else {}
  {
    hide IsPow2, Keyed, Holds, Suffix, Pending, Values;
    key := "";
    e := it.Next();
    if e != NULL {
      key := it.ht.mem[e].key;
      if key in drop {
        DropCurrent(it, key);
      }
    }
  }

  /** A full iteration that deletes some of the entries it is handed. */
  method VisitAll(ht: Dict, drop: set<Key>) returns (visited: seq<Key>)
    requires ht.Valid()
    modifies ht
    ensures Distinct(visited) && forall k :: k in visited <==> k in old(ht.Contents())
    ensures ht.Valid() && ht.Contents() == old(ht.Contents()) - drop
  {
    hide IsPow2, Keyed, Holds, Flatten, Suffix, Pending, Distinct, KeysOf, Values, Progress, Dropped, Within;
    EachKeyOnce(ht.mem, ht.sizemask, ht.own, ht.table, ht.chains);
    SameKeys(ht.mem, ht.own);
    ghost var all, m0, contents := Flatten(ht.chains), ht.mem, ht.Contents();
    ProgressStart(m0, all);
    WithinStart(m0);
    DroppedAll(contents, [], drop);
    var it := new Iterator(ht);
    visited := [];
    while true
      invariant fresh(it) && it.ht == ht && ht.Valid() && it.Valid()
      invariant Progress(m0, all, visited, it.Todo())
      invariant Within(ht.mem, m0)
      invariant ht.Contents() == contents - Dropped(visited, drop)
      decreases |all| - |visited|
    {
      ghost var m := ht.mem;
      var e, key := VisitOne(it, drop);
      if e == NULL {
        ProgressEnd(m0, all, visited);
        DroppedAll(contents, visited, drop);
        return;
      }
      WithinMore(ht.mem, m, m0, e);
      ProgressStep(m0, all, visited, e, it.Todo());
      DroppedMore(contents, visited, key, drop);
      visited := visited + [key];
    }
  }
}

/** Golomb-coded sets (deps/golombset/golombset.h): a strictly increasing list of 64-bit keys is
    stored as the unary/fixed code of its gaps, most significant bit first, in a byte buffer. */
module Golomb {
  import opened Options

  type Bits = seq<bool>
  const U64: nat := 0x1_0000_0000_0000_0000

  /** Unsigned 64-bit arithmetic. */
  function Wrap(v: nat): nat { v % U64 }

  function Shr(v: nat, k: nat): nat {
    if k == 0 then v else Shr(v / 2, k - 1)
  }

  function Shl(v: nat, k: nat): nat {
    if k == 0 then v else 2 * Shl(v, k - 1)
  }

  // ---- Reference code -------------------------------------------------------------------------

  function Zeros(n: nat): (z: Bits)
    ensures |z| == n && forall i :: 0 <= i < n ==> !z[i]
  {
    seq(n, _ => false)
  }

  /** The low `bits` bits of `value`, most significant first. */
  function Fixed(bits: nat, value: nat): (b: Bits)
    ensures |b| == bits
  {
    if bits == 0 then [] else Fixed(bits - 1, value / 2) + [value % 2 == 1]
  }

  function FromBits(b: Bits): nat {
    if b == [] then 0 else FromBits(b[..|b| - 1]) * 2 + (if b[|b| - 1] then 1 else 0)
  }

  function CodeValue(fixedBits: nat, value: nat): Bits {
    Zeros(Shr(value, fixedBits)) + [true] + Fixed(fixedBits, value)
  }

  predicate Increasing(keys: seq<nat>, nextMin: nat) {
    keys == [] || (nextMin <= keys[0] < U64 && Increasing(keys[1..], keys[0] + 1))
  }

  function CodeKeys(fixedBits: nat, keys: seq<nat>, nextMin: nat): Bits
    requires Increasing(keys, nextMin)
  {
    if keys == [] then [] else
    CodeValue(fixedBits, keys[0] - nextMin) + CodeKeys(fixedBits, keys[1..], keys[0] + 1)
  }

  /** One value off the front of a bit string, or None when the bits run out inside it. */
  function TakeValue(fixedBits: nat, bits: Bits): (r: Option<(nat, Bits)>)
    ensures r.Some? ==> |r.value.1| < |bits|
  {
    if bits == [] then None
    else if bits[0] then
      if |bits| - 1 < fixedBits then None else Some((FromBits(bits[1..1 + fixedBits]), bits[1 + fixedBits..]))
    else
      match TakeValue(fixedBits, bits[1..])
      case None => None
      case Some((v, rest)) => Some((v + Shl(1, fixedBits), rest))
  }

  /** All keys coded in `bits`, in 64-bit arithmetic; None when there are more than `capacity`. */
  function TakeKeys(fixedBits: nat, bits: Bits, nextMin: nat, capacity: nat): (r: Option<seq<nat>>)
    decreases |bits|
  {
    match TakeValue(fixedBits, bits)
    case None => Some([])
    case Some((v, rest)) =>
      if capacity == 0 then None else
      var key := Wrap(v + nextMin);
      Prepend(key, TakeKeys(fixedBits, rest, Wrap(key + 1), capacity - 1))
  }

  function Prepend(key: nat, keys: Option<seq<nat>>): Option<seq<nat>> {
    if keys.None? then None else Some([key] + keys.value)
  }

  // ---- The code is decodable ------------------------------------------------------------------

  /** `Fixed` read from the other end, the order in which the bits are emitted. */
  lemma {:induction false} FixedCons(bits: nat, value: nat)
    ensures Fixed(bits + 1, value) == [Shr(value, bits) % 2 == 1] + Fixed(bits, value)
  {
    if bits > 0 {
      FixedCons(bits - 1, value / 2);
    }
  }

  /** Quotient and remainder merge back into the value. */
  lemma {:induction false} Merge(bits: nat, value: nat)
    ensures FromBits(Fixed(bits, value)) + Shl(Shr(value, bits), bits) == value
  {
    if bits > 0 {
      Merge(bits - 1, value / 2);
      var f := Fixed(bits, value);
      assert f[..|f| - 1] == Fixed(bits - 1, value / 2);
    }
  }

  lemma {:induction false} ShlSucc(q: nat, k: nat)
    ensures Shl(q + 1, k) == Shl(q, k) + Shl(1, k)
    ensures Shl(0, k) == 0
  {
    if k > 0 { ShlSucc(q, k - 1); }
  }

  function Advance(r: Option<(nat, Bits)>, delta: nat): Option<(nat, Bits)> {
    if r.None? then None else Some((r.value.0 + delta, r.value.1))
  }

  lemma {:induction false} TakeUnary(fixedBits: nat, q: nat, tail: Bits)
    ensures TakeValue(fixedBits, Zeros(q) + tail) == Advance(TakeValue(fixedBits, tail), Shl(q, fixedBits))
  {
    if q == 0 {
      ShlSucc(0, fixedBits);
      assert Zeros(0) + tail == tail;
    } else {
      var s := Zeros(q) + tail;
      assert s[1..] == Zeros(q - 1) + tail;
      TakeUnary(fixedBits, q - 1, tail);
      ShlSucc(q - 1, fixedBits);
    }
  }

  /** A coded value is self-delimiting. */
  lemma {:induction false} TakeCoded(fixedBits: nat, value: nat, rest: Bits)
    ensures TakeValue(fixedBits, CodeValue(fixedBits, value) + rest) == Some((value, rest))
  {
    var q, fixed := Shr(value, fixedBits), Fixed(fixedBits, value);
    var tail := [true] + fixed + rest;
    assert CodeValue(fixedBits, value) + rest == Zeros(q) + tail;
    TakeUnary(fixedBits, q, tail);
    assert tail[1..1 + fixedBits] == fixed;
    assert tail[1 + fixedBits..] == rest;
    Merge(fixedBits, value);
  }

  lemma {:induction false} ZerosHoldNoValue(fixedBits: nat, p: nat)
    ensures TakeValue(fixedBits, Zeros(p)) == None
  {
    TakeUnary(fixedBits, p, []);
    assert Zeros(p) + [] == Zeros(p);
  }

  lemma WrapSmall(x: nat)
    requires x < U64
    ensures Wrap(x) == x
  {
  }

  lemma TakeFirst(fixedBits: nat, gap: nat, rest: Bits, nextMin: nat, capacity: nat)
    ensures TakeKeys(fixedBits, CodeValue(fixedBits, gap) + rest, nextMin, capacity) ==
            if capacity == 0 then None else
            Prepend(Wrap(gap + nextMin), TakeKeys(fixedBits, rest, Wrap(Wrap(gap + nextMin) + 1), capacity - 1))
  {
    TakeCoded(fixedBits, gap, rest);
  }

  /** Decoding an encoded set, however many zero bits pad it, gives back the keys; a key array that
      is too small is reported. */
  lemma {:induction false} RoundTrip(fixedBits: nat, keys: seq<nat>, nextMin: nat, padding: nat, capacity: nat)
    requires Increasing(keys, nextMin)
    ensures TakeKeys(fixedBits, CodeKeys(fixedBits, keys, nextMin) + Zeros(padding), Wrap(nextMin), capacity) ==
            if |keys| <= capacity then Some(keys) else None
    decreases |keys|
  {
    hide TakeValue, CodeValue, Wrap;
    if keys == [] {
      assert CodeKeys(fixedBits, keys, nextMin) + Zeros(padding) == Zeros(padding);
      ZerosHoldNoValue(fixedBits, padding);
    } else {
      var gap, key := keys[0] - nextMin, keys[0];
      var rest := CodeKeys(fixedBits, keys[1..], key + 1) + Zeros(padding);
      assert CodeKeys(fixedBits, keys, nextMin) + Zeros(padding) == CodeValue(fixedBits, gap) + rest;
      WrapSmall(nextMin);
      WrapSmall(key);
      TakeFirst(fixedBits, gap, rest, nextMin, capacity);
      if capacity > 0 {
        RoundTrip(fixedBits, keys[1..], key + 1, padding, capacity - 1);
        assert keys == [key] + keys[1..];
      }
    }
  }

  lemma CodeKeysFrom(fixedBits: nat, keys: seq<nat>, i: nat, nextMin: nat)
    requires i < |keys| && Increasing(keys[i..], nextMin)
    ensures nextMin <= keys[i] && Increasing(keys[i + 1..], keys[i] + 1)
    ensures CodeKeys(fixedBits, keys[i..], nextMin) ==
            CodeValue(fixedBits, keys[i] - nextMin) + CodeKeys(fixedBits, keys[i + 1..], keys[i] + 1)
  {
    assert keys[i..][1..] == keys[i + 1..];
  }

  lemma NoKeys(fixedBits: nat, nextMin: nat)
    ensures CodeKeys(fixedBits, [], nextMin) == []
  {
  }

  // ---- Bits in bytes --------------------------------------------------------------------------

  predicate Bit(b: bv8, k: nat)
    requires k < 8
  {
    (b >> k) & 1 == 1
  }

  lemma SetBit(b: bv8, k: nat, j: nat)
    requires k < 8 && j < 8
    ensures Bit(b | (1 << k), j) == (j == k || Bit(b, j))
    ensures !Bit(0, j)
  {
    if k == 0 {} else if k == 1 {} else if k == 2 {} else if k == 3 {}
    else if k == 4 {} else if k == 5 {} else if k == 6 {} else {}
    if j == 0 {} else if j == 1 {} else if j == 2 {} else if j == 3 {}
    else if j == 4 {} else if j == 5 {} else if j == 6 {} else {}
  }

  predicate BitAt(bytes: seq<bv8>, i: nat)
    requires i < 8 * |bytes|
  {
    Bit(bytes[i / 8], 7 - i % 8)
  }

  ghost function BitsOf(bytes: seq<bv8>): (b: Bits)
    ensures |b| == 8 * |bytes|
    ensures forall i :: 0 <= i < |b| ==> b[i] == BitAt(bytes, i)
  {
    seq(8 * |bytes|, i requires 0 <= i < 8 * |bytes| => BitAt(bytes, i))
  }

  // ---- Encoder --------------------------------------------------------------------------------

  class Encoder {
    const buf: array<bv8>
    const max: nat                   // one past the last byte the encoder may write
    var dst: int                     // byte being filled, -1 before the first bit
    var shift: nat                   // bits still free in it
    ghost var written: Bits          // everything emitted so far
    ghost const initial: seq<bv8>    // the buffer as it was handed over

    constructor (buf: array<bv8>, max: nat)
      requires max <= buf.Length
      ensures this.buf == buf && this.max == max && initial == buf[..]
      ensures Valid() && Untouched() && written == []
    {
      this.buf, this.max, dst, shift, written := buf, max, -1, 0, [];
      initial := buf[..];
    }

    ghost predicate Valid()
      reads this, buf
    {
      && -1 <= dst < max <= buf.Length
      && shift < 8
      && (dst == -1 ==> shift == 0)
      && |written| == 8 * (dst + 1) - shift
      && (forall i :: 0 <= i < |written| ==> written[i] == BitAt(buf[..], i))
      && (forall k :: 0 <= k < shift ==> !Bit(buf[dst], k))
    }

    /** Bytes past the one being filled, and past the limit, are as they were. */
    ghost predicate Untouched()
      reads this, buf
    {
      buf.Length == |initial| && forall i :: 0 <= i < |initial| && (dst < i || max <= i) ==> buf[i] == initial[i]
    }

    method EncodeBit(bit: bool) returns (ok: bool)
      requires Valid() && Untouched()
      modifies this, buf
      ensures Untouched()
      ensures ok <==> |old(written)| < 8 * max
      ensures ok ==> Valid() && written == old(written) + [bit]
    {
      if shift == 0 {
        dst := dst + 1;
        if dst == max {
          return false;
        }
        buf[dst] := 0;
        shift := 8;
      }
      shift := shift - 1;
      ghost var was := buf[dst];
      if bit {
        buf[dst] := buf[dst] | (1 << shift);
      }
      written := written + [bit];
      forall j | 0 <= j < 8 ensures !Bit(0, j) && Bit(buf[dst], j) == (Bit(was, j) || (bit && j == shift)) {
        SetBit(was, shift, j);
      }
      return true;
    }

    /** After the last bit, the rest of the byte is zero. */
    lemma Padded()
      requires Valid()
      ensures BitsOf(buf[..dst + 1]) == written + Zeros(shift)
    {
      var bits := BitsOf(buf[..dst + 1]);
      forall i | |written| <= i < |bits| ensures !bits[i] {
        assert i / 8 == dst && 0 <= 7 - i % 8 < shift;
      }
    }

    lemma Bound()
      requires Valid()
      ensures |written| <= 8 * max
    {
    }

    method EncodeBits(bits: nat, value: nat) returns (ok: bool)
      requires Valid() && Untouched()
      modifies this, buf
      ensures Untouched()
      ensures ok <==> |old(written)| + bits <= 8 * max
      ensures ok ==> Valid() && written == old(written) + Fixed(bits, value)
    {
      hide Valid, Untouched, Shr;
      Bound();
      var left := bits;
      while left != 0
        invariant Valid() && Untouched() && 0 <= left <= bits && |written| <= 8 * max
        invariant written + Fixed(left, value) == old(written) + Fixed(bits, value)
      {
        left := left - 1;
        FixedCons(left, value);
        ok := EncodeBit(Shr(value, left) % 2 == 1);
        if !ok {
          return;
        }
      }
      ok := true;
    }

    method EncodeValue(fixedBits: nat, value: nat) returns (ok: bool)
      requires Valid() && Untouched()
      modifies this, buf
      ensures Untouched()
      ensures ok <==> |old(written)| + |CodeValue(fixedBits, value)| <= 8 * max
      ensures ok ==> Valid() && written == old(written) + CodeValue(fixedBits, value)
    {
      hide Valid, Untouched, Shr, Fixed;
      Bound();
      var unary := Shr(value, fixedBits);
      ghost var q := unary;
      while unary != 0
        invariant Valid() && Untouched() && 0 <= unary <= q && |written| <= 8 * max
        invariant written == old(written) + Zeros(q - unary)
      {
        ok := EncodeBit(false);
        if !ok {
          return;
        }
        unary := unary - 1;
      }
      ok := EncodeBit(true);
      if !ok {
        return;
      }
      ok := EncodeBits(fixedBits, value);
    }

    method EncodeKeys(fixedBits: nat, keys: seq<nat>) returns (ok: bool)
      requires Valid() && Untouched() && written == [] && Increasing(keys, 0)
      modifies this, buf
      ensures Untouched()
      ensures ok <==> |CodeKeys(fixedBits, keys, 0)| <= 8 * max
      ensures ok ==> Valid() && written == CodeKeys(fixedBits, keys, 0)
    {
      hide Valid, Untouched, Wrap, CodeValue, CodeKeys, Increasing;
      var nextMin := 0;
      var i := 0;
      ghost var code := CodeKeys(fixedBits, keys, 0);
      assert keys[0..] == keys;
      while i != |keys|
        invariant Valid() && Untouched() && 0 <= i <= |keys| && Increasing(keys[i..], nextMin)
        invariant written + CodeKeys(fixedBits, keys[i..], nextMin) == code && |written| <= 8 * max
      {
        CodeKeysFrom(fixedBits, keys, i, nextMin);
        ghost var start := written;
        ghost var word, todo := CodeValue(fixedBits, keys[i] - nextMin),
            CodeKeys(fixedBits, keys[i + 1..], keys[i] + 1);
        assert start + (word + todo) == start + word + todo;
        ok := EncodeValue(fixedBits, keys[i] - nextMin);
        if !ok {
          return;
        }
        nextMin := keys[i] + 1;
        i := i + 1;
      }
      assert keys[i..] == [];
      NoKeys(fixedBits, nextMin);
      ok := true;
    }
  }

  lemma BytesFit(bits: nat, bytes: nat)
    ensures bits <= 8 * bytes <==> (bits + 7) / 8 <= bytes
  {
  }

  lemma BytesFor(bits: nat, bytes: nat, spare: nat)
    requires bits == 8 * bytes - spare && spare < 8
    ensures bytes == (bits + 7) / 8
  {
  }

  /** golombset_encode: succeeds exactly when the code fits, reports the bytes used, and leaves the
      code followed by zero bits in them; nothing past them is written. */
  method Encode(fixedBits: nat, keys: seq<nat>, buf: array<bv8>, bufsize: nat) returns (ok: bool, size: nat)
    requires fixedBits < 64 && Increasing(keys, 0) && bufsize <= buf.Length
    modifies buf
    ensures ok <==> (|CodeKeys(fixedBits, keys, 0)| + 7) / 8 <= bufsize
    ensures ok ==> size == (|CodeKeys(fixedBits, keys, 0)| + 7) / 8
    ensures ok ==>
        BitsOf(buf[..size]) == CodeKeys(fixedBits, keys, 0) + Zeros(8 * size - |CodeKeys(fixedBits, keys, 0)|)
    ensures forall i :: (if ok then size else bufsize) <= i < buf.Length ==> buf[i] == old(buf[i])
  {
    hide CodeKeys, Increasing, Bit;
    BytesFit(|CodeKeys(fixedBits, keys, 0)|, bufsize);
    var ctx := new Encoder(buf, bufsize);
    ok := ctx.EncodeKeys(fixedBits, keys);
    if !ok {
      return ok, 0;
    }
    size := ctx.dst + 1;
    BytesFor(|CodeKeys(fixedBits, keys, 0)|, size, ctx.shift);
    ctx.Padded();
  }

  lemma BitOf(bytes: seq<bv8>, pos: nat, shift: nat)
    requires pos < |bytes| && shift < 8
    ensures BitAt(bytes, 8 * pos + (7 - shift)) == Bit(bytes[pos], shift)
  {
    assert (8 * pos + (7 - shift)) / 8 == pos;
  }

  // ---- Decoder --------------------------------------------------------------------------------

  lemma WrapAdd(a: nat, b: nat)
    ensures Wrap(a + Wrap(b)) == Wrap(a + b) == Wrap(Wrap(a) + b)
  {
    assert a + b == a + Wrap(b) + U64 * (b / U64) == Wrap(a) + b + U64 * (a / U64);
    WrapShift(a + Wrap(b), b / U64);
    WrapShift(Wrap(a) + b, a / U64);
  }

  /** `rest` is what is left to read: the last `shift` bits of byte `pos`, and all bytes after it. */
  ghost predicate Unread(src: seq<bv8>, pos: nat, shift: nat, rest: Bits) {
    && pos < |src| && shift <= 8 && |rest| == 8 * (|src| - pos - 1) + shift
    && (forall i :: 0 <= i < |rest| ==> rest[i] == BitAt(src, i + 8 * |src| - |rest|))
  }

  lemma UnreadBound(src: seq<bv8>, pos: nat, shift: nat, rest: Bits)
    requires Unread(src, pos, shift, rest)
    ensures pos < |src| && shift <= 8
  {
  }

  lemma UnreadByte(src: seq<bv8>, pos: nat, rest: Bits)
    requires Unread(src, pos, 0, rest)
    ensures if pos + 1 == |src| then rest == [] else Unread(src, pos + 1, 8, rest) && rest != []
  {
    hide BitAt;
  }

  lemma UnreadNext(src: seq<bv8>, pos: nat, shift: nat, rest: Bits)
    requires shift < 8 && Unread(src, pos, shift + 1, rest)
    ensures rest != [] && rest[0] == Bit(src[pos], shift) && Unread(src, pos, shift, rest[1..])
  {
    hide BitAt;
    BitOf(src, pos, shift);
    var tail := rest[1..];
    forall i | 0 <= i < |tail| ensures tail[i] == BitAt(src, i + 8 * |src| - |tail|) {
      assert rest[i + 1] == BitAt(src, i + 1 + 8 * |src| - |rest|);
    }
  }

  lemma FromBitsNext(bits: Bits, k: nat)
    requires k < |bits|
    ensures FromBits(bits[..k + 1]) == FromBits(bits[..k]) * 2 + if bits[k] then 1 else 0
  {
    assert bits[..k + 1][..k] == bits[..k];
  }

  class Decoder {
    const src: seq<bv8>
    var pos: nat               // byte being read
    var shift: nat             // bits not yet read in it
    ghost var rest: Bits       // everything not yet read

    constructor (src: seq<bv8>)
      requires src != []
      ensures this.src == src && Valid() && rest == BitsOf(src)
    {
      this.src, pos, shift, rest := src, 0, 8, BitsOf(src);
    }

    ghost predicate Valid()
      reads this
    {
      Unread(src, pos, shift, rest)
    }

    /** The next bit, or None at the end of the buffer (the decoder may not be used after that). */
    method DecodeBit() returns (bit: Option<bool>)
      requires Valid()
      modifies this
      ensures bit.None? <==> old(rest) == []
      ensures bit.Some? ==> Valid() && old(rest) == [bit.value] + rest
    {
      hide Unread;
      if shift == 0 {
        UnreadByte(src, pos, rest);
        pos := pos + 1;
        if pos == |src| {
          return None;
        }
        shift := 8;
      }
      shift := shift - 1;
      UnreadBound(src, pos, shift + 1, rest);
      bit := Some((src[pos] >> shift) & 1 == 1);
      UnreadNext(src, pos, shift, rest);
      rest := rest[1..];
    }

    method DecodeBits(bits: nat) returns (value: Option<nat>)
      requires Valid()
      modifies this
      ensures value.None? <==> |old(rest)| < bits
      ensures value.Some? ==> Valid() && value.value == FromBits(old(rest)[..bits]) && rest == old(rest)[bits..]
    {
      hide Valid;
      var v := 0;
      var left := bits;
      while left != 0
        invariant Valid() && 0 <= left <= bits && bits - left <= |old(rest)|
        invariant rest == old(rest)[bits - left..]
        invariant v == FromBits(old(rest)[..bits - left])
      {
        var bit := DecodeBit();
        if bit.None? {
          return None;
        }
        ghost var k := bits - left;
        assert old(rest)[k] == old(rest)[k..][0] == bit.value && old(rest)[k..][1..] == old(rest)[k + 1..];
        FromBitsNext(old(rest), k);
        v := v * 2 + (if bit.value then 1 else 0);
        left := left - 1;
      }
      value := Some(v);
    }

    /** Reads zero bits up to and including the first one bit. */
    method DecodeQuotient() returns (q: Option<nat>)
      requires Valid()
      modifies this
      ensures q.None? ==> old(rest) == Zeros(|old(rest)|)
      ensures q.Some? ==> Valid() && old(rest) == Zeros(q.value) + ([true] + rest)
    {
      hide Valid;
      var n := 0;
      while true
        invariant Valid() && old(rest) == Zeros(n) + rest
        decreases |rest|
      {
        var bit := DecodeBit();
        if bit.None? {
          return None;
        }
        if bit.value {
          return Some(n);
        }
        n := n + 1;
      }
    }

    method DecodeValue(fixedBits: nat) returns (value: Option<nat>)
      requires Valid() && fixedBits < 64
      modifies this
      ensures value.None? <==> TakeValue(fixedBits, old(rest)).None?
      ensures value.Some? ==> Valid() && rest == TakeValue(fixedBits, old(rest)).value.1
      ensures value.Some? ==> value.value == Wrap(TakeValue(fixedBits, old(rest)).value.0)
    {
      hide Valid, Wrap, FromBits, Shl;
      ghost var start := rest;
      var q := DecodeQuotient();
      if q.None? {
        ZerosHoldNoValue(fixedBits, |start|);
        return None;
      }
      ghost var tail := [true] + rest;
      TakeUnary(fixedBits, q.value, tail);
      assert tail[1..] == rest;
      var r := DecodeBits(fixedBits);
      if r.None? {
        return None;
      }
      assert tail[1..1 + fixedBits] == tail[1..][..fixedBits];
      assert tail[1 + fixedBits..] == tail[1..][fixedBits..];
      value := Some(Wrap(r.value + Wrap(Shl(q.value, fixedBits))));
      WrapAdd(r.value, Shl(q.value, fixedBits));
    }

    method DecodeKeys(fixedBits: nat, capacity: nat) returns (keys: Option<seq<nat>>)
      requires Valid() && fixedBits < 64
      modifies this
      ensures keys == TakeKeys(fixedBits, old(rest), 0, capacity)
    {
      hide Valid, Wrap, TakeValue;
      var out: seq<nat> := [];
      var nextMin: nat := 0;
      ghost var more := TakeKeys(fixedBits, rest, 0, capacity);
      assert more.Some? ==> out + more.value == more.value;
      while true
        invariant Valid() && |out| <= capacity
        invariant more == TakeKeys(fixedBits, rest, nextMin, capacity - |out|)
        invariant TakeKeys(fixedBits, old(rest), 0, capacity) == if more.None? then None else Some(out + more.value)
        decreases |rest|
      {
        ghost var first := TakeValue(fixedBits, rest);
        var v := DecodeValue(fixedBits);
        if v.None? {
          assert out + [] == out;
          break;
        }
        if |out| == capacity {
          return None;
        }
        var key := Wrap(v.value + nextMin);
        WrapAdd(first.value.0, nextMin);
        nextMin := Wrap(key + 1);
        more := TakeKeys(fixedBits, rest, nextMin, capacity - |out| - 1);
        assert more.Some? ==> out + ([key] + more.value) == (out + [key]) + more.value;
        out := out + [key];
      }
      keys := Some(out);
    }
  }

  lemma WrapShift(x: nat, q: nat)
    ensures Wrap(x + U64 * q) == Wrap(x)
  {
    var w := x + U64 * q;
    assert w == U64 * (w / U64) + w % U64 && x == U64 * (x / U64) + x % U64;
    assert w / U64 - q - x / U64 == 0;
  }

  /** golombset_decode on a non-empty buffer: the keys coded in it, or failure when they do not fit. */
  method Decode(fixedBits: nat, src: seq<bv8>, capacity: nat) returns (keys: Option<seq<nat>>)
    requires fixedBits < 64 && src != []
    ensures keys == TakeKeys(fixedBits, BitsOf(src), 0, capacity)
  {
    var ctx := new Decoder(src);
    keys := ctx.DecodeKeys(fixedBits, capacity);
  }

  /** What Encode leaves in a buffer, Decode reads back as the same list. */
  method EncodeThenDecode(fixedBits: nat, keys: seq<nat>, buf: array<bv8>) returns (back: Option<seq<nat>>)
    requires fixedBits < 64 && keys != [] && Increasing(keys, 0)
    requires (|CodeKeys(fixedBits, keys, 0)| + 7) / 8 <= buf.Length
    modifies buf
    ensures back == Some(keys)
  {
    var _, size := Encode(fixedBits, keys, buf, buf.Length);
    RoundTrip(fixedBits, keys, 0, 8 * size - |CodeKeys(fixedBits, keys, 0)|, |keys|);
    back := Decode(fixedBits, buf[..size], |keys|);
  }
}

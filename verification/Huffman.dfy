/** The generator of the Huffman decoding table (misc/mkhufftbl.py) and the decoder that runs it
    (lib/http2/hpack.c), against bit-by-bit decoding as in section 5.2 of RFC 7541. */
module Huffman {
  import opened Options
  import opened Powers

  type Path = seq<bool>

  const EOS := 256

  /** A complete prefix code. */
  datatype Tree = Leaf(sym: nat) | Branch(zero: Tree, one: Tree)

  function At(t: Tree, p: Path): Option<Tree> {
    if p == [] then Some(t) else if t.Leaf? then None else At(if p[0] then t.one else t.zero, p[1..])
  }

  ghost predicate Inner(t: Tree, p: Path) { At(t, p).Some? && At(t, p).value.Branch? }

  ghost predicate IsLeaf(t: Tree, p: Path) { At(t, p).Some? && At(t, p).value.Leaf? }

  /** `codes[s]` is the code word of symbol `s`, and the tree has no other leaves. */
  ghost predicate Codes(t: Tree, codes: seq<Path>) {
    && (forall s :: 0 <= s < |codes| ==> At(t, codes[s]) == Some(Leaf(s)))
    && (forall p :: IsLeaf(t, p) ==> At(t, p).value.sym < |codes| && codes[At(t, p).value.sym] == p)
  }

  lemma {:induction false} AtAppend(t: Tree, p: Path, q: Path)
    requires At(t, p).Some?
    ensures At(t, p + q) == At(At(t, p).value, q)
  {
    if p == [] {
      assert p + q == q;
    } else {
      assert (p + q)[1..] == p[1..] + q;
      AtAppend(if p[0] then t.one else t.zero, p[1..], q);
    }
  }

  /** The children of an inner node. */
  lemma AtChild(t: Tree, p: Path, b: bool)
    requires Inner(t, p)
    ensures At(t, p + [b]) == Some(if b then At(t, p).value.one else At(t, p).value.zero)
  {
    AtAppend(t, p, [b]);
    assert [b][1..] == [];
  }

  // ---- Decoding bit by bit ------------------------------------------------------------------------

  /** Where a walk down the tree is, and what it has put out. */
  datatype Walk = Walk(at: Path, out: seq<nat>)

  /** One bit: a leaf puts its symbol out and goes back to the root. */
  ghost function StepBit(t: Tree, p: Path, b: bool): (w: Walk)
    requires t.Branch? && Inner(t, p)
    ensures Inner(t, w.at)
  {
    AtChild(t, p, b);
    match At(t, p + [b]).value
    case Leaf(s) => Walk([], [s])
    case Branch(_, _) => Walk(p + [b], [])
  }

  ghost function WalkBits(t: Tree, p: Path, bits: Path): (w: Walk)
    requires t.Branch? && Inner(t, p)
    ensures Inner(t, w.at)
    decreases |bits|
  {
    if bits == [] then Walk(p, []) else
    var w := StepBit(t, p, bits[0]);
    var rest := WalkBits(t, w.at, bits[1..]);
    Walk(rest.at, w.out + rest.out)
  }

  lemma {:induction false} WalkAppend(t: Tree, p: Path, a: Path, b: Path)
    requires t.Branch? && Inner(t, p)
    ensures WalkBits(t, p, a + b) == Walk(WalkBits(t, WalkBits(t, p, a).at, b).at,
        WalkBits(t, p, a).out + WalkBits(t, WalkBits(t, p, a).at, b).out)
    decreases |a|
  {
    hide At, Inner, StepBit;
    if a == [] {
      assert a + b == b;
    } else {
      var w := StepBit(t, p, a[0]);
      WalkAppend(t, w.at, a[1..], b);
      assert (a + b)[1..] == a[1..] + b;
      var u, v := WalkBits(t, w.at, a[1..]), WalkBits(t, WalkBits(t, w.at, a[1..]).at, b);
      assert w.out + (u.out + v.out) == (w.out + u.out) + v.out;
    }
  }

  function CodeOf(codes: seq<Path>, s: nat): Path { if s < |codes| then codes[s] else [] }

  function Encode(codes: seq<Path>, syms: seq<nat>): Path {
    if syms == [] then [] else Encode(codes, syms[..|syms| - 1]) + CodeOf(codes, syms[|syms| - 1])
  }

  lemma EncodeSnoc(codes: seq<Path>, syms: seq<nat>, s: nat)
    ensures Encode(codes, syms + [s]) == Encode(codes, syms) + CodeOf(codes, s)
  {
    assert (syms + [s])[..|syms|] == syms;
  }

  /** Every symbol is below `n`. */
  ghost predicate Below(syms: seq<nat>, n: nat) { forall i :: 0 <= i < |syms| ==> syms[i] < n }

  /** Walking from a node to one below it puts nothing out on the way; ending at a leaf puts out its symbol. */
  lemma {:induction false} WalkDown(t: Tree, p: Path, q: Path)
    requires t.Branch? && Inner(t, p) && q != [] && At(t, p + q).Some?
    ensures At(t, p + q).value.Branch? ==> WalkBits(t, p, q) == Walk(p + q, [])
    ensures At(t, p + q).value.Leaf? ==> WalkBits(t, p, q) == Walk([], [At(t, p + q).value.sym])
    decreases |q|
  {
    hide At;
    AtChild(t, p, q[0]);
    assert p + q == (p + [q[0]]) + q[1..];
    if |q| == 1 {
      assert q == [q[0]] && p + q == p + [q[0]];
      assert WalkBits(t, StepBit(t, p, q[0]).at, q[1..]) == Walk(StepBit(t, p, q[0]).at, []);
    } else {
      PrefixInner(t, p + [q[0]], q[1..]);
      WalkDown(t, p + [q[0]], q[1..]);
    }
  }

  /** Decoding undoes encoding. */
  lemma {:induction false} WalkEncode(t: Tree, codes: seq<Path>, syms: seq<nat>)
    requires t.Branch? && Codes(t, codes) && Below(syms, |codes|)
    ensures WalkBits(t, [], Encode(codes, syms)) == Walk([], syms)
  {
    hide WalkBits, StepBit;
    if syms == [] {
      WalkNothing(t, []);
    } else {
      var n := |syms| - 1;
      WalkEncode(t, codes, syms[..n]);
      WalkCode(t, codes, syms[n]);
      WalkAppend(t, [], Encode(codes, syms[..n]), codes[syms[n]]);
      assert syms[..n] + [syms[n]] == syms;
    }
  }

  lemma WalkNothing(t: Tree, p: Path)
    requires t.Branch? && Inner(t, p)
    ensures WalkBits(t, p, []) == Walk(p, [])
  {
  }

  lemma WalkCode(t: Tree, codes: seq<Path>, s: nat)
    requires t.Branch? && Codes(t, codes) && s < |codes|
    ensures WalkBits(t, [], codes[s]) == Walk([], [s])
  {
    hide WalkBits, StepBit;
    var c := codes[s];
    assert At(t, c) == Some(Leaf(s));
    assert [] + c == c;
    WalkDown(t, [], c);
  }

  /** One more bit. */
  lemma WalkSnoc(t: Tree, bits: Path, b: bool)
    requires t.Branch?
    ensures var w := WalkBits(t, [], bits); var v := StepBit(t, w.at, b); WalkBits(t, [], bits + [b]) == Walk(v.at,
        w.out + v.out)
  {
    hide StepBit;
    var w := WalkBits(t, [], bits);
    var v := StepBit(t, w.at, b);
    WalkAppend(t, [], bits, [b]);
    assert [b][1..] == [];
    assert WalkBits(t, v.at, []) == Walk(v.at, []);
    assert v.out + [] == v.out;
  }

  lemma StepInverse(t: Tree, codes: seq<Path>, p: Path, b: bool, out: seq<nat>)
    requires t.Branch? && Codes(t, codes) && Inner(t, p) && Below(out, |codes|)
    ensures var v := StepBit(t, p, b);
        Below(out + v.out, |codes|)
        && Encode(codes, out + v.out) + v.at == Encode(codes, out) + (p + [b])
  {
    hide Encode, At;
    AtChild(t, p, b);
    var v := StepBit(t, p, b);
    if v.out != [] {
      assert IsLeaf(t, p + [b]);
      EncodeSnoc(codes, out, v.out[0]);
    } else {
      assert out + v.out == out;
    }
  }

  /** What was read is what was put out, encoded, and the way to the node reached. */
  lemma {:induction false} WalkInverse(t: Tree, codes: seq<Path>, bits: Path)
    requires t.Branch? && Codes(t, codes)
    ensures Below(WalkBits(t, [], bits).out, |codes|)
    ensures bits == Encode(codes, WalkBits(t, [], bits).out) + WalkBits(t, [], bits).at
  {
    hide StepBit, Encode, Codes, WalkBits, At, Inner;
    RootInner(t);
    if bits == [] {
      WalkNothing(t, []);
      assert Encode(codes, []) == [] by { EncodeNothing(codes); }
    } else {
      var n := |bits| - 1;
      var b, w := bits[n], WalkBits(t, [], bits[..n]);
      WalkInverse(t, codes, bits[..n]);
      WalkSnoc(t, bits[..n], b);
      StepInverse(t, codes, w.at, b, w.out);
      assert bits == bits[..n] + [b] == Encode(codes, w.out) + (w.at + [b]);
    }
  }

  lemma EncodeNothing(codes: seq<Path>)
    ensures Encode(codes, []) == []
  {
  }

  function Ones(k: nat): (p: Path)
    ensures |p| == k && forall i :: 0 <= i < k ==> p[i]
  {
    if k == 0 then [] else Ones(k - 1) + [true]
  }

  predicate AllOnes(p: Path) { p == Ones(|p|) }

  /** A node at which the input may end: the padding so far is at most seven ones. */
  predicate MayEnd(p: Path) { |p| <= 7 && AllOnes(p) }

  /** The code is one of RFC 7541: code words of at least 4 bits, and an end-of-string symbol coded by ones only,
      more than seven of them. */
  ghost predicate Suitable(t: Tree, codes: seq<Path>) {
    && t.Branch? && Codes(t, codes) && |codes| == EOS + 1
    && (forall s :: 0 <= s < |codes| ==> |codes[s]| >= 4)
    && |codes[EOS]| > 7 && AllOnes(codes[EOS])
  }

  // ---- Suitable codes -------------------------------------------------------------------------------

  function Under(b: bool, ws: seq<Path>): (r: seq<Path>)
    ensures |r| == |ws| && forall i :: 0 <= i < |r| ==> r[i] == [b] + ws[i]
  {
    seq(|ws|, i requires 0 <= i < |ws| => [b] + ws[i])
  }

  /** The ways to the leaves, from left to right. */
  function Words(t: Tree): (r: seq<Path>)
    ensures |r| > 0
  {
    match t
    case Leaf(_) => [[]]
    case Branch(zero, one) => Under(false, Words(zero)) + Under(true, Words(one))
  }

  /** The symbols of the leaves, from left to right. */
  function Labels(t: Tree): (r: seq<nat>)
    ensures |r| == |Words(t)|
  {
    match t
    case Leaf(sym) => [sym]
    case Branch(zero, one) => Labels(zero) + Labels(one)
  }

  lemma {:induction false} WordLeads(t: Tree, i: nat)
    requires i < |Words(t)|
    ensures At(t, Words(t)[i]) == Some(Leaf(Labels(t)[i]))
  {
    if t.Branch? {
      var w, n := Words(t)[i], |Words(t.zero)|;
      if i < n {
        assert w[1..] == Words(t.zero)[i];
        WordLeads(t.zero, i);
      } else {
        assert w[1..] == Words(t.one)[i - n];
        WordLeads(t.one, i - n);
      }
    }
  }

  lemma {:induction false} LeafHasWord(t: Tree, p: Path) returns (i: nat)
    requires IsLeaf(t, p)
    ensures i < |Words(t)| && Words(t)[i] == p
    decreases |p|
  {
    i := 0;
    if p != [] {
      var n := |Words(t.zero)|;
      assert p == [p[0]] + p[1..];
      if p[0] {
        var j := LeafHasWord(t.one, p[1..]);
        i := n + j;
        assert Words(t)[i] == Under(true, Words(t.one))[j];
      } else {
        i := LeafHasWord(t.zero, p[1..]);
        assert Words(t)[i] == Under(false, Words(t.zero))[i];
      }
    }
  }

  /** No leaf is nearer to the root than `d`. */
  ghost predicate FullTo(t: Tree, d: nat) { d == 0 || (t.Branch? && FullTo(t.zero, d - 1) && FullTo(t.one, d - 1)) }

  lemma {:induction false} WordsLong(t: Tree, d: nat, i: nat)
    requires FullTo(t, d) && i < |Words(t)|
    ensures |Words(t)[i]| >= d
    decreases d
  {
    if d > 0 {
      if i < |Words(t.zero)| {
        WordsLong(t.zero, d - 1, i);
      } else {
        WordsLong(t.one, d - 1, i - |Words(t.zero)|);
      }
    }
  }

  ghost function RightDepth(t: Tree): nat { if t.Leaf? then 0 else 1 + RightDepth(t.one) }

  lemma {:induction false} LastWord(t: Tree)
    ensures Words(t)[|Words(t)| - 1] == Ones(RightDepth(t))
  {
    if t.Branch? {
      LastWord(t.one);
      assert [true] + Ones(RightDepth(t.one)) == Ones(RightDepth(t));
    }
  }

  /** Each of the symbols below the number of leaves occurs once. */
  ghost predicate EachOnce(labels: seq<nat>) {
    && (forall i, j :: 0 <= i < j < |labels| ==> labels[i] != labels[j])
    && (forall i :: 0 <= i < |labels| ==> labels[i] < |labels|) && (forall s: nat :: s < |labels| ==> s in labels)
  }

  ghost function PlaceOf(labels: seq<nat>, s: nat): (i: nat)
    requires s in labels
    ensures i < |labels| && labels[i] == s
  {
    var i :| 0 <= i < |labels| && labels[i] == s; i
  }

  /** The code words by symbol. */
  ghost function CodesOf(t: Tree): (r: seq<Path>)
    requires EachOnce(Labels(t))
    ensures |r| == |Words(t)|
    ensures forall s :: 0 <= s < |r| ==> r[s] == Words(t)[PlaceOf(Labels(t), s)]
  {
    seq(|Words(t)|, s requires 0 <= s < |Words(t)| => Words(t)[PlaceOf(Labels(t), s)])
  }

  /** Every full tree of 257 leaves, however they are numbered, none of them above depth 4 and the last of them, the end
      of string, below depth 7, gives a code. */
  lemma TreeIsSuitable(t: Tree)
    requires EachOnce(Labels(t)) && |Words(t)| == EOS + 1 && FullTo(t, 4) && RightDepth(t) > 7
    requires Labels(t)[EOS] == EOS
    ensures Suitable(t, CodesOf(t))
  {
    hide Words, Labels;
    var codes, labels := CodesOf(t), Labels(t);
    forall s | 0 <= s < |codes| ensures At(t, codes[s]) == Some(Leaf(s)) && |codes[s]| >= 4 {
      WordLeads(t, PlaceOf(labels, s));
      WordsLong(t, 4, PlaceOf(labels, s));
    }
    forall p | IsLeaf(t, p) ensures At(t, p).value.sym < |codes| && codes[At(t, p).value.sym] == p {
      var i := LeafHasWord(t, p);
      WordLeads(t, i);
      assert PlaceOf(labels, labels[i]) == i;
    }
    LastWord(t);
    assert PlaceOf(labels, EOS) == EOS;
  }

  /** The full tree of depth `d` with symbols from `s`; `split` gives its last leaf two children. */
  ghost function FullTree(d: nat, s: nat, split: bool): Tree
    decreases d
  {
    if d > 0 then Branch(FullTree(d - 1, s, false), FullTree(d - 1, s + Pow2(d - 1), split))
    else if split then Branch(Leaf(s), Leaf(s + 1)) else Leaf(s)
  }

  lemma {:induction false} FullTreeOrder(d: nat, s: nat, split: bool)
    ensures var t := FullTree(d, s, split);
            && |Words(t)| == Pow2(d) + (if split then 1 else 0) && FullTo(t, d)
            && RightDepth(t) == d + (if split then 1 else 0)
            && forall i :: 0 <= i < |Labels(t)| ==> Labels(t)[i] == s + i
    decreases d
  {
    if d > 0 {
      FullTreeOrder(d - 1, s, false);
      FullTreeOrder(d - 1, s + Pow2(d - 1), split);
    }
  }

  lemma OrderOnce(labels: seq<nat>)
    requires forall i :: 0 <= i < |labels| ==> labels[i] == i
    ensures EachOnce(labels)
  {
    forall s: nat | s < |labels| ensures s in labels { assert labels[s] == s; }
  }

  lemma {:induction false} FullToLess(t: Tree, d: nat, e: nat)
    requires FullTo(t, d) && e <= d
    ensures FullTo(t, e)
    decreases e
  {
    if e > 0 {
      FullToLess(t.zero, d - 1, e - 1);
      FullToLess(t.one, d - 1, e - 1);
    }
  }

  /** The full tree of 256 leaves, with its last leaf split, gives a code. */
  lemma FullTreeIsSuitable(d: nat) returns (t: Tree)
    requires Pow2(d) == EOS && d >= 7
    ensures EachOnce(Labels(t)) && Suitable(t, CodesOf(t))
  {
    hide Suitable, Words, Labels, FullTo, FullTree, EachOnce;
    t := FullTree(d, 0, true);
    FullTreeOrder(d, 0, true);
    FullToLess(t, d, 4);
    OrderOnce(Labels(t));
    TreeIsSuitable(t);
  }

  /** There is a suitable code: 255 words of eight bits and two of nine. */
  lemma SomeCodeIsSuitable() returns (t: Tree)
    ensures EachOnce(Labels(t)) && Suitable(t, CodesOf(t))
  {
    hide Suitable, CodesOf, Labels, EachOnce;
    assert Pow2(4) == 16;
    t := FullTreeIsSuitable(8);
  }

  /** What section 5.2 of RFC 7541 asks of a decoder. */
  ghost function Decoded(t: Tree, bits: Path): Option<seq<nat>>
    requires t.Branch?
  {
    var w := WalkBits(t, [], bits);
    if EOS in w.out || !MayEnd(w.at) then None else Some(w.out)
  }

  lemma OnesInner(t: Tree, codes: seq<Path>, k: nat)
    requires Suitable(t, codes) && k <= 7
    ensures Inner(t, Ones(k))
  {
    var c := codes[EOS];
    assert c == Ones(k) + c[k..];
    PrefixInner(t, Ones(k), c[k..]);
  }

  lemma {:induction false} PrefixInner(t: Tree, p: Path, q: Path)
    requires At(t, p + q).Some? && q != []
    ensures Inner(t, p)
  {
    if p != [] {
      assert (p + q)[1..] == p[1..] + q;
      PrefixInner(if p[0] then t.one else t.zero, p[1..], q);
    } else {
      assert p + q == q;
    }
  }

  lemma WalkOnes(t: Tree, codes: seq<Path>, k: nat)
    requires Suitable(t, codes) && k <= 7
    ensures WalkBits(t, [], Ones(k)) == Walk(Ones(k), [])
  {
    if k > 0 {
      OnesInner(t, codes, k);
      assert [] + Ones(k) == Ones(k);
      WalkDown(t, [], Ones(k));
    }
  }

  /** `bits` is the encoding of `syms`, padded with at most seven ones. */
  ghost predicate Padded(codes: seq<Path>, syms: seq<nat>, bits: Path) {
    exists k :: 0 <= k <= 7 && bits == Encode(codes, syms) + Ones(k)
  }

  /** Exactly the padded encodings are decoded, to what was encoded. */
  lemma DecodedIff(t: Tree, codes: seq<Path>, bits: Path, syms: seq<nat>)
    requires Suitable(t, codes)
    ensures Decoded(t, bits) == Some(syms) <==> Below(syms, EOS) && Padded(codes, syms, bits)
  {
    if Decoded(t, bits) == Some(syms) { DecodedOnly(t, codes, bits, syms); }
    if Below(syms, EOS) && Padded(codes, syms, bits) { DecodedAll(t, codes, bits, syms); }
  }

  lemma DecodedOnly(t: Tree, codes: seq<Path>, bits: Path, syms: seq<nat>)
    requires Suitable(t, codes) && Decoded(t, bits) == Some(syms)
    ensures Below(syms, EOS) && Padded(codes, syms, bits)
  {
    hide WalkBits, Encode, Codes;
    var w := WalkBits(t, [], bits);
    WalkInverse(t, codes, bits);
    assert bits == Encode(codes, syms) + Ones(|w.at|);
    forall i | 0 <= i < |syms| ensures syms[i] < EOS { assert syms[i] in syms; }
  }

  lemma DecodedAll(t: Tree, codes: seq<Path>, bits: Path, syms: seq<nat>)
    requires Suitable(t, codes) && Below(syms, EOS) && Padded(codes, syms, bits)
    ensures Decoded(t, bits) == Some(syms)
  {
    hide WalkBits, Encode, Codes, At;
    var k :| 0 <= k <= 7 && bits == Encode(codes, syms) + Ones(k);
    WalkEncode(t, codes, syms);
    WalkAppend(t, [], Encode(codes, syms), Ones(k));
    WalkOnes(t, codes, k);
    assert syms + [] == syms;
  }

  // ---- Four bits at a time --------------------------------------------------------------------------

  /** A transition as _traverse records it: the node reached, possibly a leaf, and the symbol met; neither if
      that was the end-of-string symbol. */
  datatype Trans = Trans(node: Option<Path>, sym: Option<nat>)

  ghost function Home(t: Tree, p: Path): Path { if IsLeaf(t, p) then [] else p }

  ghost function Met(t: Tree, p: Path, sym: Option<nat>): Option<nat> {
    if IsLeaf(t, p) then Some(At(t, p).value.sym) else sym
  }

  function Final(p: Path,
                 sym: Option<nat>): Trans { if sym == Some(EOS) then Trans(None, None) else Trans(Some(p), sym) }

  /** The transition for `bits`, from `p` where `sym` has been met. */
  ghost function Traversed(t: Tree, p: Path, sym: Option<nat>, bits: Path): Trans
    decreases |bits|
  {
    if bits == [] then Final(p, sym) else
    var q := Home(t, p) + [bits[0]];
    Traversed(t, q, Met(t, q, sym), bits[1..])
  }

  /** No second symbol comes within the nibble. */
  ghost predicate OneSymbol(t: Tree, p: Path, sym: Option<nat>, left: nat) {
    left <= 4 && (sym.Some? ==> |Home(t, p)| + left < 4)
  }

  /** Code words have at least four bits. */
  ghost predicate Deep(t: Tree) { t.Branch? && forall p :: IsLeaf(t, p) ==> |p| >= 4 }

  lemma OneSymbolNext(t: Tree, p: Path, sym: Option<nat>, left: nat, b: bool)
    requires Deep(t) && At(t, p).Some? && left > 0 && OneSymbol(t, p, sym, left)
    ensures var q := Home(t, p) + [b];
            At(t, q).Some? && (IsLeaf(t, q) ==> sym.None?) && OneSymbol(t, q, Met(t, q, sym), left - 1)
  {
    AtChild(t, Home(t, p), b);
  }

  /** A transition takes the walk where the bits take it, and has its output. */
  lemma {:induction false} TraversedWalks(t: Tree, p: Path, sym: Option<nat>, bits: Path)
    requires Deep(t) && At(t, p).Some? && OneSymbol(t, p, sym, |bits|)
    requires Inner(t, Home(t, p))
    ensures var w := WalkBits(t, Home(t, p), bits); var r := Traversed(t, p, sym, bits);
            var all := (if sym.Some? then [sym.value] else []) + w.out;
            && (r.node.None? <==> EOS in all) && (r.node.None? ==> r.sym.None?)
            && (r.node.Some? ==> At(t, r.node.value).Some? && Home(t, r.node.value) == w.at)
            && (r.node.Some? ==> all == if r.sym.Some? then [r.sym.value] else [])
    decreases |bits|
  {
    hide At;
    if bits != [] {
      var q := Home(t, p) + [bits[0]];
      OneSymbolNext(t, p, sym, |bits|, bits[0]);
      AtChild(t, Home(t, p), bits[0]);
      var v := StepBit(t, Home(t, p), bits[0]);
      assert v.at == Home(t, q);
      TraversedWalks(t, q, Met(t, q, sym), bits[1..]);
    }
  }

  /** The number with these binary digits. */
  function Value(bits: Path): (v: nat)
    ensures v < Pow2(|bits|)
  {
    if bits == [] then 0 else (if bits[0] then Pow2(|bits| - 1) else 0) + Value(bits[1..])
  }

  /** `trans` holds the transition for every value of `left` bits. */
  ghost predicate Covers(t: Tree, p: Path, sym: Option<nat>, left: nat, trans: seq<Trans>) {
    |trans| == Pow2(left) && forall bits: Path :: |bits| == left ==> trans[Value(bits)] == Traversed(t, p, sym, bits)
  }

  lemma CoversBoth(t: Tree, p: Path, sym: Option<nat>, left: nat, a: seq<Trans>, b: seq<Trans>)
    requires left > 0
    requires Covers(t, Home(t, p) + [false], Met(t, Home(t, p) + [false], sym), left - 1, a)
    requires Covers(t, Home(t, p) + [true], Met(t, Home(t, p) + [true], sym), left - 1, b)
    ensures Covers(t, p, sym, left, a + b)
  {
    forall bits: Path | |bits| == left ensures (a + b)[Value(bits)] == Traversed(t, p, sym, bits) {
      assert |bits[1..]| == left - 1;
    }
  }

  // ---- The generator ----------------------------------------------------------------------------------

  datatype Node = Node(term: Option<nat>, id: Option<nat>, accept: bool, trans: seq<Trans>)

  const BLANK := Node(None, None, false, [])

  /** A node is known by the way to it from the root; a child that is not there is not in the map. */
  type Nodes = map<Path, Node>

  function TermOf(t: Option<Tree>): Option<nat> { if t.Some? && t.value.Leaf? then Some(t.value.sym) else None }

  /** The nodes and terminal symbols are those of the tree. */
  ghost predicate Shape(nodes: Nodes, t: Tree) {
    && (forall p :: p in nodes <==> At(t, p).Some?)
    && (forall p :: p in nodes ==> nodes[p].term == TermOf(At(t, p)))
  }

  function Old(nodes: Nodes, p: Path): Node { if p in nodes then nodes[p] else BLANK }

  /** What _add does from node `path` on. */
  ghost predicate Added(nodes: Nodes, nodes': Nodes, path: Path, sym: nat, bits: Path) {
    && (forall p :: p in nodes' <==> p in nodes || (path <= p && p <= path + bits))
    && (forall p :: p in nodes' ==>
          nodes'[p] == if p == path + bits then Old(nodes, p).(term := Some(sym)) else Old(nodes, p))
  }

  /** `p` leads towards one of the first `n` code words. */
  ghost predicate Leads(codes: seq<Path>, n: nat, p: Path)
    requires n <= |codes|
  {
    n > 0 && (p <= codes[n - 1] || Leads(codes, n - 1, p))
  }

  ghost function TermIn(codes: seq<Path>, n: nat, p: Path): Option<nat>
    requires n <= |codes|
  {
    if n == 0 then None else if codes[n - 1] == p then Some(n - 1) else TermIn(codes, n - 1, p)
  }

  ghost predicate PartialAt(nodes: Nodes, codes: seq<Path>, n: nat, p: Path)
    requires n <= |codes|
  {
    if p == [] || Leads(codes, n, p) then p in nodes && nodes[p] == BLANK.(term := TermIn(codes, n, p)) else p !in nodes
  }

  /** The tree after the first `n` code words. */
  ghost predicate Partial(nodes: Nodes, codes: seq<Path>, n: nat)
    requires n <= |codes|
  {
    forall p :: PartialAt(nodes, codes, n, p)
  }

  /** An entry of the printed table, its flags spelled out. */
  datatype Entry = Entry(state: nat, accepted: bool, hasSym: bool, fail: bool, invalidName: bool, invalidValue: bool,
                         upperCase: bool, sym: nat)

  ghost predicate Printable(nodes: Nodes, trans: seq<Trans>) {
    forall i :: 0 <= i < |trans| ==>
        (trans[i].node.Some? ==> trans[i].node.value in nodes)
        && (trans[i].sym.Some? ==> trans[i].sym.value < EOS)
  }

  lemma PrintableAt(nodes: Nodes, trans: seq<Trans>, i: nat)
    requires Printable(nodes, trans) && i < |trans|
    ensures trans[i].node.Some? ==> trans[i].node.value in nodes
    ensures trans[i].sym.Some? ==> trans[i].sym.value < EOS
  {
  }

  ghost function EntryOf(nodes: Nodes, tr: Trans, validName: seq<bool>, validValue: seq<bool>): Entry {
    var known := tr.node.Some? && tr.node.value in nodes && nodes[tr.node.value].id.Some?;
    var shown := tr.sym.Some? && tr.sym.value < |validName| && tr.sym.value < |validValue|;
    Entry(if known then nodes[tr.node.value].id.value else 0,
          tr.node.Some? && (known ==> nodes[tr.node.value].accept), tr.sym.Some?, tr.node.None?,
          shown && !validName[tr.sym.value], shown && !validValue[tr.sym.value],
          tr.sym.Some? && 'A' as int <= tr.sym.value <= 'Z' as int, if tr.sym.Some? then tr.sym.value else 0)
  }

  ghost function RowOf(nodes: Nodes, trans: seq<Trans>, validName: seq<bool>, validValue: seq<bool>): (row: seq<Entry>)
    ensures |row| == |trans|
  {
    if trans == [] then [] else
    RowOf(nodes, trans[..|trans| - 1], validName,
        validValue) + [EntryOf(nodes, trans[|trans| - 1], validName, validValue)]
  }

  lemma {:induction false} RowAt(nodes: Nodes, trans: seq<Trans>, validName: seq<bool>, validValue: seq<bool>, i: nat)
    requires i < |trans|
    ensures RowOf(nodes, trans, validName, validValue)[i] == EntryOf(nodes, trans[i], validName, validValue)
  {
    if i < |trans| - 1 { RowAt(nodes, trans[..|trans| - 1], validName, validValue, i); }
  }

  /** Row `k` is that of the inner node numbered `k`. */
  ghost predicate Printed(nodes: Nodes, rows: seq<seq<Entry>>, path: Path, sub: Tree, validName: seq<bool>,
                          validValue: seq<bool>) {
    && |rows| == Count(sub)
    && forall q :: Inner(sub, q) ==>
         IdAt(sub, 0, q) < |rows| && path + q in nodes
         && rows[IdAt(sub, 0, q)] == RowOf(nodes, nodes[path + q].trans, validName, validValue)
  }

  lemma PrintedLeaf(nodes: Nodes, path: Path, sub: Tree, validName: seq<bool>, validValue: seq<bool>)
    requires sub.Leaf?
    ensures Printed(nodes, [], path, sub, validName, validValue)
  {
  }

  lemma {:induction false} IdShift(t: Tree, start: nat, q: Path)
    ensures IdAt(t, start, q) == start + IdAt(t, 0, q)
  {
    if q != [] && t.Branch? {
      if q[0] {
        IdShift(t.one, start + 1 + Count(t.zero), q[1..]);
        IdShift(t.one, 1 + Count(t.zero), q[1..]);
      } else {
        IdShift(t.zero, start + 1, q[1..]);
        IdShift(t.zero, 1, q[1..]);
      }
    }
  }

  lemma PrintedBranch(nodes: Nodes, zero: seq<seq<Entry>>, one: seq<seq<Entry>>, path: Path, sub: Tree,
                      validName: seq<bool>, validValue: seq<bool>)
    requires sub.Branch? && path in nodes
    requires Printed(nodes, zero, path + [false], sub.zero, validName, validValue)
    requires Printed(nodes, one, path + [true], sub.one, validName, validValue)
    ensures Printed(nodes, [RowOf(nodes, nodes[path].trans, validName, validValue)] + zero + one, path, sub, validName,
        validValue)
  {
    hide RowOf;
    var rows := [RowOf(nodes, nodes[path].trans, validName, validValue)] + zero + one;
    forall q | Inner(sub, q)
      ensures IdAt(sub, 0, q) < |rows| && path + q in nodes
      ensures rows[IdAt(sub, 0, q)] == RowOf(nodes, nodes[path + q].trans, validName, validValue)
    {
      if q == [] {
        assert path + q == path;
      } else if q[0] {
        assert Inner(sub.one, q[1..]);
        IdShift(sub.one, 1 + Count(sub.zero), q[1..]);
        assert path + q == (path + [true]) + q[1..];
      } else {
        assert Inner(sub.zero, q[1..]);
        IdShift(sub.zero, 1, q[1..]);
        assert path + q == (path + [false]) + q[1..];
      }
    }
  }

  lemma AddedHere(nodes: Nodes, path: Path, sym: nat, bits: Path)
    requires bits == [] && path in nodes
    ensures Added(nodes, nodes[path := nodes[path].(term := Some(sym))], path, sym, bits)
  {
    assert path + bits == path;
    var nodes' := nodes[path := nodes[path].(term := Some(sym))];
    forall p ensures p in nodes' <==> p in nodes || (path <= p && p <= path + bits) {
      if path <= p && p <= path + bits { assert p == path; }
    }
  }

  lemma AddedUp(was: Nodes, mid: Nodes, now: Nodes, path: Path, sym: nat, bits: Path)
    requires bits != [] && path in was && mid == was[path + [bits[0]] := Old(was, path + [bits[0]])]
    requires Added(mid, now, path + [bits[0]], sym, bits[1..])
    ensures Added(was, now, path, sym, bits)
  {
    var child := path + [bits[0]];
    assert child + bits[1..] == path + bits;
    forall p ensures p in now <==> p in was || (path <= p && p <= path + bits) {
      if path <= p && p <= path + bits && p != path { assert child <= p; }
    }
  }

  lemma {:induction false} PrefixSome(t: Tree, p: Path, q: Path)
    requires At(t, p + q).Some?
    ensures At(t, p).Some?
  {
    if q == [] { assert p + q == p; } else { PrefixInner(t, p, q); }
  }

  lemma {:induction false} LeafBelow(t: Tree) returns (q: Path)
    ensures IsLeaf(t, q)
  {
    if t.Leaf? {
      q := [];
    } else {
      var r := LeafBelow(t.zero);
      q := [false] + r;
      assert q[1..] == r;
    }
  }

  /** Nothing but terminal symbols is set. */
  ghost predicate Plain(nodes: Nodes) { forall p :: p in nodes ==> nodes[p] == BLANK.(term := nodes[p].term) }

  lemma PartialStart(codes: seq<Path>)
    ensures Partial(map[[] := BLANK], codes, 0)
  {
  }

  lemma PartialRoot(nodes: Nodes, codes: seq<Path>, n: nat)
    requires n <= |codes| && Partial(nodes, codes, n)
    ensures [] in nodes
  {
    assert PartialAt(nodes, codes, n, []);
  }

  lemma {:induction false} TermInIs(codes: seq<Path>, n: nat, p: Path)
    requires n <= |codes|
    ensures TermIn(codes, n, p).Some? ==>
        TermIn(codes, n, p).value < n && codes[TermIn(codes, n, p).value] == p
        && Leads(codes, n, p)
    ensures forall s :: 0 <= s < n && codes[s] == p ==> TermIn(codes, n, p).Some?
    ensures forall s :: 0 <= s < n && p <= codes[s] ==> Leads(codes, n, p)
  {
    if n > 0 { TermInIs(codes, n - 1, p); }
  }

  lemma PartialNext(nodes: Nodes, nodes': Nodes, codes: seq<Path>, n: nat, t: Tree)
    requires n < |codes| && Codes(t, codes) && Partial(nodes, codes, n) && [] in nodes
        && Added(nodes, nodes', [], n, codes[n])
    ensures Partial(nodes', codes, n + 1)
  {
    hide At, Partial;
    var c := codes[n];
    var m := n + 1;
    assert [] + c == c;
    forall p ensures PartialAt(nodes', codes, m, p) {
      PartialHas(nodes, codes, n, p);
      if !Leads(codes, n, p) { TermInIs(codes, n, p); }
    }
    PartialEach(nodes', codes, m);
  }

  lemma PartialHas(nodes: Nodes, codes: seq<Path>, n: nat, p: Path)
    requires n <= |codes| && Partial(nodes, codes, n)
    ensures PartialAt(nodes, codes, n, p)
  {
  }

  lemma PartialEach(nodes: Nodes, codes: seq<Path>, n: nat)
    requires n <= |codes| && forall p :: PartialAt(nodes, codes, n, p)
    ensures Partial(nodes, codes, n)
  {
  }

  lemma PartialAll(nodes: Nodes, codes: seq<Path>, t: Tree)
    requires Codes(t, codes) && Partial(nodes, codes, |codes|)
    ensures Shape(nodes, t) && Plain(nodes)
  {
    hide At, Partial, Codes;
    forall p
      ensures p in nodes <==> At(t, p).Some?
      ensures p in nodes ==> nodes[p] == BLANK.(term := TermOf(At(t, p)))
    {
      PartialHas(nodes, codes, |codes|, p);
      LeadsIff(codes, t, p);
    }
  }

  lemma LeadsIff(codes: seq<Path>, t: Tree, p: Path)
    requires Codes(t, codes)
    ensures At(t, p).Some? <==> p == [] || Leads(codes, |codes|, p)
    ensures At(t, p).Some? ==> TermIn(codes, |codes|, p) == TermOf(At(t, p))
  {
    hide At;
    TermInIs(codes, |codes|, p);
    RootSome(t);
    if Leads(codes, |codes|, p) {
      var s := LeadsTo(codes, |codes|, p);
      assert codes[s] == p + codes[s][|p|..];
      PrefixSome(t, p, codes[s][|p|..]);
    }
    if At(t, p).Some? {
      var q := LeafBelow(At(t, p).value);
      AtAppend(t, p, q);
      assert IsLeaf(t, p + q);
      assert p <= codes[At(t, p + q).value.sym];
      assert IsLeaf(t, p) ==> codes[At(t, p).value.sym] == p;
    }
  }

  lemma RootSome(t: Tree)
    ensures At(t, []) == Some(t)
  {
  }

  lemma {:induction false} LeadsTo(codes: seq<Path>, n: nat, p: Path) returns (s: nat)
    requires n <= |codes| && Leads(codes, n, p)
    ensures s < n && p <= codes[s]
  {
    if p <= codes[n - 1] { s := n - 1; } else { s := LeadsTo(codes, n - 1, p); }
  }

  /** The number of inner nodes. */
  ghost function Count(t: Tree): nat { if t.Leaf? then 0 else 1 + Count(t.zero) + Count(t.one) }

  /** The preorder number of the inner node at `q`, counting from `start`. */
  ghost function IdAt(t: Tree, start: nat, q: Path): nat {
    if q == [] || t.Leaf? then start
    else if q[0] then IdAt(t.one, start + 1 + Count(t.zero), q[1..])
    else IdAt(t.zero, start + 1, q[1..])
  }

  ghost function NumberedNode(n: Node, t: Tree, path: Path, sub: Tree, start: nat, p: Path): Node {
    if path <= p && Inner(t, p) then n.(id := Some(IdAt(sub, start, p[|path|..])), accept := n.accept || MayEnd(p))
    else n
  }

  ghost predicate Numbered(nodes: Nodes, nodes': Nodes, t: Tree, path: Path, sub: Tree, start: nat) {
    && nodes'.Keys == nodes.Keys && forall p :: p in nodes ==> nodes'[p] == NumberedNode(nodes[p], t, path, sub, start,
        p)
  }

  lemma BelowBranch(path: Path, p: Path)
    ensures path <= p <==> p == path || path + [false] <= p || path + [true] <= p
    ensures !(path + [false] <= path) && !(path + [true] <= path)
    ensures !(path + [false] <= p && path + [true] <= p)
    ensures path + [false] <= p ==> p[|path|..] == [false] + p[|path| + 1..]
    ensures path + [true] <= p ==> p[|path|..] == [true] + p[|path| + 1..]
  {
    var zero, one := path + [false], path + [true];
    if path <= p && |path| < |p| { assert path + [p[|path|]] <= p; assert if p[|path|] then one <= p else zero <= p; }
    if path <= p && |path| == |p| { assert p == path; }
    if zero <= p { assert p[|path|] == zero[|path|] && zero[..|path|] == path == p[..|path|]; }
    if one <= p { assert p[|path|] == one[|path|] && one[..|path|] == path == p[..|path|]; }
  }

  lemma NumberedBoth(n0: Nodes, n1: Nodes, n2: Nodes, n3: Nodes, t: Tree, path: Path, sub: Tree, start: nat)
    requires path in n0 && At(t, path) == Some(sub) && sub.Branch?
    requires n1 == n0[path := n0[path].(id := Some(start), accept := n0[path].accept || MayEnd(path))]
    requires Numbered(n1, n2, t, path + [false], sub.zero, start + 1)
    requires Numbered(n2, n3, t, path + [true], sub.one, start + 1 + Count(sub.zero))
    ensures Numbered(n0, n3, t, path, sub, start)
  {
    hide At, MayEnd;
    forall p | p in n0 ensures n3[p] == NumberedNode(n0[p], t, path, sub, start, p) {
      BelowBranch(path, p);
    }
  }

  lemma InnerBranch(t: Tree, p: Path)
    requires At(t, p).Some? && At(t, p).value.Branch?
    ensures Inner(t, p)
  {
  }

  lemma ShapeNode(nodes: Nodes, t: Tree, p: Path)
    requires Shape(nodes, t)
    ensures p in nodes <==> At(t, p).Some?
    ensures p in nodes ==> nodes[p].term == TermOf(At(t, p))
  {
  }

  lemma ShapeUpdate(nodes: Nodes, t: Tree, p: Path, n: Node)
    requires Shape(nodes, t) && p in nodes && n.term == nodes[p].term
    ensures Shape(nodes[p := n], t)
  {
  }

  lemma NumberedShape(nodes: Nodes, nodes': Nodes, t: Tree, path: Path, sub: Tree, start: nat)
    requires Shape(nodes, t) && Numbered(nodes, nodes', t, path, sub, start)
    ensures Shape(nodes', t)
  {
    hide At, IdAt, MayEnd;
  }

  lemma NumberedLeaf(nodes: Nodes, t: Tree, path: Path, start: nat)
    requires IsLeaf(t, path)
    ensures Numbered(nodes, nodes, t, path, At(t, path).value, start)
  {
    hide At, IdAt, MayEnd;
    forall p | path <= p ensures !Inner(t, p) {
      if Inner(t, p) && p != path {
        assert p == path + p[|path|..];
        PrefixInner(t, path, p[|path|..]);
      }
    }
  }

  lemma CoversNone(t: Tree, p: Path, sym: Option<nat>)
    ensures Covers(t, p, sym, 0, [Final(p, sym)])
  {
  }

  lemma TraverseChild(nodes: Nodes, t: Tree, p: Path, sym: Option<nat>, left: nat, b: bool)
    requires Shape(nodes, t) && Deep(t) && p in nodes && left > 0 && OneSymbol(t, p, sym, left)
    ensures var q := Home(t, p) + [b];
            && Home(t, p) == (if nodes[p].term.Some? then [] else p) && q in nodes
            && (nodes[q].term.Some? ==> sym.None?)
            && Met(t, q, sym) == (if nodes[q].term.Some? then nodes[q].term else sym)
            && OneSymbol(t, q, Met(t, q, sym), left - 1)
  {
    OneSymbolNext(t, p, sym, left, b);
  }

  lemma LeafChildless(t: Tree, p: Path)
    requires IsLeaf(t, p)
    ensures At(t, p + [false]).None? && At(t, p + [true]).None?
  {
    AtAppend(t, p, [false]);
    AtAppend(t, p, [true]);
  }

  /** Every node from `path` down has got its sixteen transitions. */
  ghost predicate Built(nodes: Nodes, nodes': Nodes, t: Tree, path: Path) {
    && nodes'.Keys == nodes.Keys
    && (forall p :: p in nodes ==> nodes'[p] == nodes[p].(trans := nodes'[p].trans))
    && (forall p :: p in nodes && !(path <= p) ==> nodes'[p] == nodes[p])
    && (forall p :: p in nodes && path <= p && nodes[p].trans == [] ==> Covers(t, p, None, 4, nodes'[p].trans))
  }

  lemma BuiltLeaf(n0: Nodes, n1: Nodes, t: Tree, path: Path, added: seq<Trans>)
    requires path in n0 && IsLeaf(t, path) && Covers(t, path, None, 4, added) && Shape(n0, t)
    requires n1 == n0[path := n0[path].(trans := n0[path].trans + added)]
    ensures Built(n0, n1, t, path)
  {
    forall p | p in n0 && path <= p ensures p == path {
      if p != path { assert p == path + p[|path|..]; PrefixInner(t, path, p[|path|..]); }
    }
    assert [] + added == added;
  }

  lemma BuiltBoth(n0: Nodes, n1: Nodes, n2: Nodes, n3: Nodes, t: Tree, path: Path, added: seq<Trans>)
    requires path in n0 && Covers(t, path, None, 4, added)
        && n1 == n0[path := n0[path].(trans := n0[path].trans + added)]
    requires Built(n1, n2, t, path + [false]) && Built(n2, n3, t, path + [true])
    ensures Built(n0, n3, t, path)
  {
    hide Covers;
    assert [] + added == added;
    forall p | p in n0
      ensures n3[p] == n0[p].(trans := n3[p].trans) && (!(path <= p) ==> n3[p] == n0[p])
      ensures path <= p && n0[p].trans == [] ==> Covers(t, p, None, 4, n3[p].trans)
    {
      BelowBranch(path, p);
    }
  }

  class Context {
    var nextId: nat
    var nodes: Nodes

    constructor ()
      ensures nextId == 0 && nodes == map[[] := BLANK]
    {
      nextId, nodes := 0, map[[] := BLANK];
    }

    method Add(path: Path, sym: nat, bits: Path)
      requires path in nodes
      modifies this`nodes
      ensures Added(old(nodes), nodes, path, sym, bits)
      decreases |bits|
    {
      if |bits| == 0 {
        AddedHere(nodes, path, sym, bits);
        nodes := nodes[path := nodes[path].(term := Some(sym))];
      } else {
        var child := path + [bits[0]];
        ghost var was := nodes;
        if child !in nodes {
          nodes := nodes[child := BLANK];
        }
        ghost var mid := nodes;
        Add(child, sym, bits[1..]);
        assert child + bits[1..] == path + bits;
        AddedUp(was, mid, nodes, path, sym, bits);
      }
    }

    /** huffman_tree_add for every symbol in turn. */
    method MakeTree(codes: seq<Path>, ghost t: Tree)
      requires nodes == map[[] := BLANK] && Codes(t, codes)
      modifies this`nodes
      ensures Shape(nodes, t) && Plain(nodes)
    {
      hide At, Added, Codes, Shape, Partial, Plain;
      PartialStart(codes);
      var s := 0;
      while s < |codes|
        invariant 0 <= s <= |codes| && Partial(nodes, codes, s)
      {
        ghost var was := nodes;
        PartialRoot(nodes, codes, s);
        Add([], s, codes[s]);
        PartialNext(was, nodes, codes, s, t);
        s := s + 1;
      }
      PartialAll(nodes, codes, t);
    }

    /** _set_node_id: numbers the inner nodes in preorder and marks those at which the input may end. */
    method SetNodeId(path: Path, ghost t: Tree, ghost sub: Tree)
      requires Shape(nodes, t) && At(t, path) == Some(sub)
      modifies this
      ensures Numbered(old(nodes), nodes, t, path, sub, old(nextId)) && nextId == old(nextId) + Count(sub)
      decreases sub
    {
      hide At, Shape, Numbered, Inner, MayEnd, IdAt;
      ShapeNode(nodes, t, path);
      if nodes[path].term.Some? {
        NumberedLeaf(nodes, t, path, nextId);
        return;
      }
      ghost var n0, start := nodes, nextId;
      if MayEnd(path) {
        nodes := nodes[path := nodes[path].(accept := true)];
      }
      nodes := nodes[path := nodes[path].(id := Some(nextId))];
      nextId := nextId + 1;
      AtChild(t, path, false) by { InnerBranch(t, path); }
      AtChild(t, path, true) by { InnerBranch(t, path); }
      ghost var n1 := nodes;
      assert n1 == n0[path := n1[path]];
      ShapeUpdate(n0, t, path, n1[path]);
      SetNodeId(path + [false], t, sub.zero);
      ghost var n2 := nodes;
      NumberedShape(n1, n2, t, path + [false], sub.zero, start + 1);
      SetNodeId(path + [true], t, sub.one);
      NumberedBoth(n0, n1, n2, nodes, t, path, sub, start);
    }

    /** _traverse: appends to the transitions of `start` those for the next `left` bits. */
    method Traverse(node: Path, sym: Option<nat>, start: Path, left: nat, ghost t: Tree)
        returns (ghost added: seq<Trans>)
      requires Shape(nodes, t) && Deep(t) && node in nodes && start in nodes && OneSymbol(t, node, sym, left)
      modifies this`nodes
      ensures nodes == old(nodes)[start := old(nodes)[start].(trans := old(nodes)[start].trans + added)]
      ensures Covers(t, node, sym, left, added) && Shape(nodes, t)
      decreases left
    {
      hide At, Deep, OneSymbol, Covers, Shape, Home, Met, IsLeaf;
      if left == 0 {
        var final := if sym == Some(256) then Trans(None, None) else Trans(Some(node), sym);
        nodes := nodes[start := nodes[start].(trans := nodes[start].trans + [final])];
        added := [final];
        CoversNone(t, node, sym);
        ShapeUpdate(old(nodes), t, start, nodes[start]);
        return;
      }
      var from := if nodes[node].term.Some? then [] else node;
      TraverseChild(nodes, t, node, sym, left, false);
      TraverseChild(nodes, t, node, sym, left, true);
      ghost var trans := nodes[start].trans;
      assert nodes[from + [false]].term.Some? ==> sym.None?;
      var a := Traverse(from + [false],
                        if nodes[from + [false]].term.Some? then nodes[from + [false]].term else sym,
                        start, left - 1, t);
      assert nodes[from + [true]].term.Some? ==> sym.None?;
      var b := Traverse(from + [true],
                        if nodes[from + [true]].term.Some? then nodes[from + [true]].term else sym,
                        start, left - 1, t);
      assert trans + a + b == trans + (a + b);
      added := a + b;
      CoversBoth(t, node, sym, left, a, b);
    }

    /** _build_transition_table for the nodes from `path` down. */
    method BuildTransitions(path: Path, ghost t: Tree, ghost sub: Tree)
      requires Shape(nodes, t) && Deep(t) && At(t, path) == Some(sub)
      modifies this`nodes
      ensures Shape(nodes, t) && Built(old(nodes), nodes, t, path)
      decreases sub
    {
      hide At, Deep, Covers;
      ghost var n0 := nodes;
      var added := Traverse(path, None, path, 4, t);
      ghost var n1 := nodes;
      if sub.Branch? {
        AtChild(t, path, false);
        AtChild(t, path, true);
      } else {
        LeafChildless(t, path);
      }
      if path + [false] in nodes && path + [true] in nodes {
        BuildTransitions(path + [false], t, sub.zero);
        ghost var n2 := nodes;
        BuildTransitions(path + [true], t, sub.one);
        BuiltBoth(n0, n1, n2, nodes, t, path, added);
      } else {
        BuiltLeaf(n0, n1, t, path, added);
      }
    }

    /** The entries printed for one node. */
    method PrintRow(path: Path, validName: seq<bool>, validValue: seq<bool>) returns (row: seq<Entry>)
      requires path in nodes && Printable(nodes, nodes[path].trans) && |validName| == |validValue| == EOS
      ensures row == RowOf(nodes, nodes[path].trans, validName, validValue)
    {
      hide Printable;
      row := [];
      var trans := nodes[path].trans;
      var i := 0;
      while i < |trans|
        invariant 0 <= i <= |trans| && row == RowOf(nodes, trans[..i], validName, validValue)
      {
        var nd, sym := trans[i].node, trans[i].sym;
        PrintableAt(nodes, trans, i);
        var out, hasSym, badName, badValue, upper := 0, false, false, false, false;
        if sym.Some? {
          out, hasSym := sym.value, true;
          badName, badValue := !validName[sym.value], !validValue[sym.value];
          upper := 'A' as int <= sym.value <= 'Z' as int;
        }
        var id, fail, accepted := 0, false, false;
        if nd.None? {
          fail := true;
        } else {
          var n := nodes[nd.value];
          if n.id.None? {
            accepted := true;
          } else {
            id := n.id.value;
            accepted := n.accept;
          }
        }
        assert trans[..i + 1][..i] == trans[..i];
        row := row + [Entry(id, accepted, hasSym, fail, badName, badValue, upper, out)];
        i := i + 1;
      }
      assert trans[..|trans|] == trans;
    }

    /** _print_transition_table: the rows of the inner nodes from `path` down, in preorder. */
    method Print(path: Path, validName: seq<bool>, validValue: seq<bool>, ghost t: Tree, ghost sub: Tree)
        returns (rows: seq<seq<Entry>>)
      requires Shape(nodes, t) && At(t, path) == Some(sub) && |validName| == |validValue| == EOS
      requires forall p :: p in nodes ==> Printable(nodes, nodes[p].trans)
      ensures Printed(nodes, rows, path, sub, validName, validValue)
      decreases sub
    {
      hide At, Shape, Printable, Printed, RowOf;
      ShapeNode(nodes, t, path);
      if nodes[path].term.Some? {
        rows := [];
        PrintedLeaf(nodes, path, sub, validName, validValue);
        return;
      }
      AtChild(t, path, false);
      AtChild(t, path, true);
      ShapeNode(nodes, t, path + [false]);
      ShapeNode(nodes, t, path + [true]);
      var row := PrintRow(path, validName, validValue);
      var zero := Print(path + [false], validName, validValue, t, sub.zero);
      var one := Print(path + [true], validName, validValue, t, sub.one);
      rows := [row] + zero + one;
      PrintedBranch(nodes, zero, one, path, sub, validName, validValue);
    }
  }

  // ---- The whole table --------------------------------------------------------------------------------

  ghost predicate Ready(nodes: Nodes, t: Tree, p: Path)
    requires p in nodes
  {
    && nodes[p].id == (if Inner(t, p) then Some(IdAt(t, 0, p)) else None)
    && nodes[p].accept == (Inner(t, p) && MayEnd(p))
    && Covers(t, p, None, 4, nodes[p].trans)
  }

  lemma AllReady(n1: Nodes, n2: Nodes, n3: Nodes, t: Tree)
    requires Plain(n1) && Numbered(n1, n2, t, [], t, 0) && Built(n2, n3, t, [])
    ensures n3.Keys == n1.Keys && forall p :: p in n3 ==> Ready(n3, t, p)
  {
    hide At, Inner, Covers, MayEnd, IdAt;
    forall p | p in n3 ensures Ready(n3, t, p) {
      assert p[0..] == p;
      assert n2[p].trans == [];
    }
  }

  function ToBits(v: nat, n: nat): (bits: Path)
    requires v < Pow2(n)
    ensures |bits| == n && Value(bits) == v
  {
    if n == 0 then [] else
    var high := v >= Pow2(n - 1);
    [high] + ToBits(if high then v - Pow2(n - 1) else v, n - 1)
  }

  lemma {:induction false} WalkOutBelow(t: Tree, codes: seq<Path>, p: Path, bits: Path)
    requires t.Branch? && Codes(t, codes) && Inner(t, p)
    ensures Below(WalkBits(t, p, bits).out, |codes|)
    decreases |bits|
  {
    hide At, Inner;
    if bits != [] {
      AtChild(t, p, bits[0]);
      if At(t, p + [bits[0]]).value.Leaf? { assert IsLeaf(t, p + [bits[0]]); }
      WalkOutBelow(t, codes, StepBit(t, p, bits[0]).at, bits[1..]);
    }
  }

  lemma DeepIf(t: Tree, codes: seq<Path>)
    requires Suitable(t, codes)
    ensures Deep(t)
  {
    hide At;
  }

  /** The entry sends the walk from `p` where the four bits send it. */
  ghost predicate EntryOk(t: Tree, e: Entry, p: Path, bits: Path)
    requires t.Branch? && Inner(t, p)
  {
    var w := WalkBits(t, p, bits);
    && (e.fail <==> EOS in w.out)
    && (!e.fail ==> e.state == IdAt(t, 0, w.at) && (e.accepted <==> MayEnd(w.at)))
    && (!e.fail ==> w.out == if e.hasSym then [e.sym] else [])
  }

  lemma TransOk(t: Tree, codes: seq<Path>, nodes: Nodes, p: Path, bits: Path)
    requires Suitable(t, codes) && Shape(nodes, t) && p in nodes && |bits| == 4
        && forall q :: q in nodes ==> Ready(nodes, t, q)
    ensures var tr := Traversed(t, p, None, bits);
            && (tr.node.Some? ==> tr.node.value in nodes) && (tr.sym.Some? ==> tr.sym.value < EOS)
    ensures Inner(t, p) ==> EntryOk(t, EntryOf(nodes, Traversed(t, p, None, bits), [], []), p, bits)
  {
    hide At, Traversed, WalkBits, MayEnd, Codes, Covers, Deep;
    DeepIf(t, codes);
    ShapeNode(nodes, t, p);
    HomeInner(t, p);
    TraversedWalks(t, p, None, bits);
    WalkOutBelow(t, codes, Home(t, p), bits);
    var tr, w := Traversed(t, p, None, bits), WalkBits(t, Home(t, p), bits);
    assert [] + w.out == w.out;
    if tr.node.Some? {
      ShapeNode(nodes, t, tr.node.value);
      assert Ready(nodes, t, tr.node.value);
      HomeId(t, tr.node.value);
      if tr.sym.Some? { assert w.out[0] == tr.sym.value && tr.sym.value in w.out; }
    }
  }

  lemma HomeInner(t: Tree, p: Path)
    requires t.Branch? && At(t, p).Some?
    ensures Inner(t, Home(t, p)) && (Inner(t, p) ==> Home(t, p) == p)
  {
  }

  lemma HomeId(t: Tree, p: Path)
    requires t.Branch? && At(t, p).Some?
    ensures Inner(t, p) ==> Home(t, p) == p
    ensures !Inner(t, p) ==> IdAt(t, 0, Home(t, p)) == 0 && MayEnd(Home(t, p))
  {
  }

  ghost predicate RowOk(t: Tree, row: seq<Entry>, p: Path)
    requires t.Branch? && Inner(t, p)
  {
    |row| == 16 && forall bits: Path :: |bits| == 4 ==> EntryOk(t, row[Value(bits)], p, bits)
  }

  /** The table follows the bit-by-bit walk: one row per inner node, in preorder. */
  ghost predicate TableOk(t: Tree, table: seq<seq<Entry>>)
    requires t.Branch?
  {
    && |table| == Count(t)
    && forall p :: Inner(t, p) ==> IdAt(t, 0, p) < |table| && RowOk(t, table[IdAt(t, 0, p)], p)
  }

  lemma PowFour()
    ensures Pow2(4) == 16 && Pow2(8) == 256
  {
  }

  lemma AllPrintable(t: Tree, codes: seq<Path>, nodes: Nodes, p: Path)
    requires Suitable(t, codes) && Shape(nodes, t) && p in nodes && forall q :: q in nodes ==> Ready(nodes, t, q)
    ensures Printable(nodes, nodes[p].trans)
  {
    hide Traversed, Suitable, Shape, EntryOk, At, Inner, IdAt, MayEnd;
    PowFour();
    var trans := nodes[p].trans;
    assert Ready(nodes, t, p);
    forall i | 0 <= i < |trans|
      ensures (trans[i].node.Some? ==> trans[i].node.value in nodes)
          && (trans[i].sym.Some? ==> trans[i].sym.value < EOS)
    {
      TransOk(t, codes, nodes, p, ToBits(i, 4));
    }
  }

  lemma RowIsOk(t: Tree, codes: seq<Path>, nodes: Nodes, p: Path, validName: seq<bool>, validValue: seq<bool>)
    requires Suitable(t, codes) && Shape(nodes, t) && p in nodes && Inner(t, p)
        && forall q :: q in nodes ==> Ready(nodes, t, q)
    ensures RowOk(t, RowOf(nodes, nodes[p].trans, validName, validValue), p)
  {
    hide Traversed, Suitable, Shape, At, IdAt, MayEnd, RowOf, WalkBits, Inner;
    PowFour();
    var row := RowOf(nodes, nodes[p].trans, validName, validValue);
    assert Ready(nodes, t, p);
    RootBranch(t, codes);
    forall bits: Path | |bits| == 4 ensures EntryOk(t, row[Value(bits)], p, bits) {
      TransOk(t, codes, nodes, p, bits);
      RowAt(nodes, nodes[p].trans, validName, validValue, Value(bits));
    }
  }

  lemma RootBranch(t: Tree, codes: seq<Path>)
    requires Suitable(t, codes)
    ensures t.Branch?
  {
  }

  lemma TableIsOk(t: Tree, codes: seq<Path>, nodes: Nodes, rows: seq<seq<Entry>>, validName: seq<bool>,
                  validValue: seq<bool>)
    requires Suitable(t, codes) && Shape(nodes, t) && forall q :: q in nodes ==> Ready(nodes, t, q)
    requires Printed(nodes, rows, [], t, validName, validValue)
    ensures TableOk(t, rows)
  {
    hide RowOk, RowOf, Ready, Shape, IdAt, At, Inner;
    forall p | Inner(t, p) ensures IdAt(t, 0, p) < |rows| && RowOk(t, rows[IdAt(t, 0, p)], p) {
      assert [] + p == p;
      RowIsOk(t, codes, nodes, p, validName, validValue);
    }
  }

  /** The generator: for every suitable code it prints a table that follows the bit-by-bit walk. */
  method Generate(codes: seq<Path>, validName: seq<bool>, validValue: seq<bool>, ghost t: Tree)
      returns (table: seq<seq<Entry>>)
    requires Suitable(t, codes) && |validName| == |validValue| == EOS
    ensures TableOk(t, table)
  {
    hide Shape, Plain, Numbered, Built, Printed, TableOk, Ready, Printable, Codes, Deep, At;
    var ctx := new Context();
    ctx.MakeTree(codes, t);
    RootSome(t);
    ghost var n1 := ctx.nodes;
    ctx.SetNodeId([], t, t);
    ghost var n2 := ctx.nodes;
    NumberedShape(n1, n2, t, [], t, 0);
    DeepIf(t, codes);
    ctx.BuildTransitions([], t, t);
    AllReady(n1, n2, ctx.nodes, t);
    forall p | p in ctx.nodes ensures Printable(ctx.nodes, ctx.nodes[p].trans) { AllPrintable(t, codes, ctx.nodes, p); }
    table := ctx.Print([], validName, validValue, t, t);
    TableIsOk(t, codes, ctx.nodes, table, validName, validValue);
  }

  // ---- The decoder ------------------------------------------------------------------------------------

  type Byte = x: int | 0 <= x < 256

  function Nibble(v: nat): (bits: Path)
    requires v < 16
    ensures |bits| == 4 && Value(bits) == v
  {
    PowFour();
    ToBits(v, 4)
  }

  function ByteBits(b: Byte): (bits: Path)
    ensures |bits| == 8 && Value(bits) == b
  {
    PowFour();
    ToBits(b, 8)
  }

  /** The bits of a string of bytes, the most significant first. */
  ghost function BitsOf(src: seq<Byte>): Path {
    if src == [] then [] else BitsOf(src[..|src| - 1]) + ByteBits(src[|src| - 1])
  }

  lemma Nibbles(b: Byte)
    ensures ByteBits(b) == Nibble(b / 16) + Nibble(b % 16)
  {
    hide Value, ToBits, ByteBits, Nibble;
    ValueAppend(Nibble(b / 16), Nibble(b % 16));
    ValueInjective(ByteBits(b), Nibble(b / 16) + Nibble(b % 16));
  }

  lemma {:induction false} ValueAppend(a: Path, nib: Path)
    requires |nib| == 4
    ensures Value(a + nib) == 16 * Value(a) + Value(nib)
  {
    if a == [] {
      assert a + nib == nib;
    } else {
      ValueAppend(a[1..], nib);
      PowTimes(|a| - 1);
      assert (a + nib)[1..] == a[1..] + nib;
    }
  }

  lemma {:induction false} ValueInjective(a: Path, b: Path)
    requires |a| == |b| && Value(a) == Value(b)
    ensures a == b
  {
    if a != [] {
      assert Value(a[1..]) < Pow2(|a| - 1) && Value(b[1..]) < Pow2(|b| - 1);
      ValueInjective(a[1..], b[1..]);
      assert a == [a[0]] + a[1..] && b == [b[0]] + b[1..];
    }
  }

  lemma {:induction false} PowTimes(n: nat)
    ensures Pow2(n + 4) == 16 * Pow2(n)
  {
    if n > 0 { PowTimes(n - 1); } else { PowFour(); }
  }

  /** What the decoder knows after some nibbles, while none has failed. */
  ghost predicate Follows(t: Tree, bits: Path, dst: seq<nat>, state: nat, maybeEos: bool)
    requires t.Branch?
  {
    var w := WalkBits(t, [], bits);
    dst == w.out && state == IdAt(t, 0, w.at) && (maybeEos <==> MayEnd(w.at)) && EOS !in dst
  }

  lemma FollowsStart(t: Tree)
    requires t.Branch?
    ensures Follows(t, [], [], 0, true)
  {
  }

  /** The bits put out the end-of-string symbol. */
  ghost predicate Hits(t: Tree, bits: Path) { t.Branch? && EOS in WalkBits(t, [], bits).out }

  /** The entry is right for the bits read so far and the next four, together `more`. */
  ghost predicate NextOk(t: Tree, e: Entry, more: Path, dst: seq<nat>)
    requires t.Branch?
  {
    && (e.fail <==> Hits(t, more))
    && (!e.fail ==> Follows(t, more, if e.hasSym then dst + [e.sym] else dst, e.state, e.accepted))
  }

  lemma FollowsNext(t: Tree, table: seq<seq<Entry>>, bits: Path, dst: seq<nat>, state: nat, maybeEos: bool, nib: Path)
    requires t.Branch? && TableOk(t, table) && Follows(t, bits, dst, state, maybeEos) && |nib| == 4
    ensures state < |table| && |table[state]| == 16 && Value(nib) < 16
        && NextOk(t, table[state][Value(nib)], bits + nib, dst)
  {
    hide At, Inner, MayEnd, IdAt, WalkBits, Value;
    PowFour();
    RootInner(t);
    var w := WalkBits(t, [], bits);
    assert RowOk(t, table[state], w.at);
    var e := table[state][Value(nib)];
    assert EntryOk(t, e, w.at, nib);
    WalkAppend(t, [], bits, nib);
    assert dst + [] == dst;
  }

  lemma RootInner(t: Tree)
    requires t.Branch?
    ensures Inner(t, [])
  {
  }

  /** Once the end-of-string symbol is met, no continuation makes up for it. */
  lemma StaysFailed(t: Tree, bits: Path, more: Path)
    requires t.Branch? && EOS in WalkBits(t, [], bits).out
    ensures EOS in WalkBits(t, [], bits + more).out
  {
    hide WalkBits, At, Inner;
    RootInner(t);
    WalkAppend(t, [], bits, more);
    StillIn(WalkBits(t, [], bits).out, WalkBits(t, WalkBits(t, [], bits).at, more).out);
  }

  lemma StillIn(a: seq<nat>, b: seq<nat>)
    requires EOS in a
    ensures EOS in a + b
  {
  }

  lemma {:induction false} BitsPrefix(src: seq<Byte>, i: nat) returns (more: Path)
    requires i <= |src|
    ensures BitsOf(src) == BitsOf(src[..i]) + more
    decreases |src|
  {
    hide ByteBits, Value;
    if i == |src| {
      assert src[..i] == src;
      more := [];
    } else {
      var m := BitsPrefix(src[..|src| - 1], i);
      assert src[..|src| - 1][..i] == src[..i];
      more := m + ByteBits(src[|src| - 1]);
    }
  }

  /** huffdecode4: one nibble. */
  method Decode4(table: seq<seq<Entry>>, nibble: nat, dst: seq<nat>, state: nat)
      returns (ok: bool, dst': seq<nat>, state': nat, maybeEos: bool)
    requires state < |table| && nibble < |table[state]|
    ensures var e := table[state][nibble];
            (ok <==> !e.fail) && (ok ==>
                dst' == (if e.hasSym then dst + [e.sym] else dst) && state' == e.state
                && maybeEos == e.accepted)
  {
    dst' := dst;
    var entry := table[state][nibble];
    if entry.fail {
      return false, dst, state, false;
    }
    if entry.hasSym {
      dst' := dst' + [entry.sym];
    }
    return true, dst', entry.state, entry.accepted;
  }

  /** vhttp_hpack_decode_huffman: decodes, on a generated table, what section 5.2 of RFC 7541 says. */
  method DecodeHuffman(table: seq<seq<Entry>>, src: seq<Byte>, ghost t: Tree) returns (r: Option<seq<nat>>)
    requires t.Branch? && TableOk(t, table)
    ensures r == Decoded(t, BitsOf(src))
  {
    hide TableOk, Follows, At, ByteBits, Nibble, Value, WalkBits, Inner;
    var dst: seq<nat>, state, maybeEos := [], 0, true;
    FollowsStart(t);
    var i := 0;
    RootInner(t);
    while i < |src|
      invariant 0 <= i <= |src| && Follows(t, BitsOf(src[..i]), dst, state, maybeEos)
    {
      ghost var bits := BitsOf(src[..i]);
      ghost var more := BitsPrefix(src, i + 1);
      assert src[..i + 1][..i] == src[..i];
      Nibbles(src[i]);
      ghost var high, low := Nibble(src[i] / 16), Nibble(src[i] % 16);
      assert BitsOf(src[..i + 1]) == bits + (high + low) == (bits + high) + low;
      assert BitsOf(src) == (bits + high) + (low + more);
      FollowsNext(t, table, bits, dst, state, maybeEos, high);
      var ok;
      ok, dst, state, maybeEos := Decode4(table, src[i] / 16, dst, state);
      if !ok {
        StaysFailed(t, bits + high, low + more);
        return None;
      }
      FollowsNext(t, table, bits + high, dst, state, maybeEos, low);
      ok, dst, state, maybeEos := Decode4(table, src[i] % 16, dst, state);
      if !ok {
        StaysFailed(t, bits + high + low, more);
        return None;
      }
      i := i + 1;
    }
    assert src[..|src|] == src;
    FollowsEnd(t, BitsOf(src), dst, state, maybeEos);
    if !maybeEos {
      return None;
    }
    return Some(dst);
  }

  lemma FollowsEnd(t: Tree, bits: Path, dst: seq<nat>, state: nat, maybeEos: bool)
    requires t.Branch? && Follows(t, bits, dst, state, maybeEos)
    ensures Decoded(t, bits) == if maybeEos then Some(dst) else None
  {
  }

  /** Generator and decoder together: a string of bytes decodes to exactly what it encodes. */
  method GenerateAndDecode(codes: seq<Path>, validName: seq<bool>, validValue: seq<bool>, src: seq<Byte>, ghost t: Tree)
    returns (r: Option<seq<nat>>)
    requires Suitable(t, codes) && |validName| == |validValue| == EOS
    ensures r.None? ==> forall syms :: Below(syms, EOS) ==> !Padded(codes, syms, BitsOf(src))
    ensures r.Some? ==> Below(r.value, EOS) && Padded(codes, r.value, BitsOf(src))
  {
    hide TableOk, Codes, At, Decoded, Below, Padded;
    var table := Generate(codes, validName, validValue, t);
    r := DecodeHuffman(table, src, t);
    forall syms ensures r == Some(syms) <==> Below(syms, EOS) && Padded(codes, syms, BitsOf(src)) {
      DecodedIff(t, codes, BitsOf(src), syms);
    }
  }

  // ---- The number of states ------------------------------------------------------------------------

  /** Inner nodes are one fewer than leaves. */
  lemma {:induction false} RowCount(t: Tree)
    ensures Count(t) + 1 == |Words(t)|
  {
    if t.Branch? { RowCount(t.zero); RowCount(t.one); }
  }

  ghost function PathsIn(ws: seq<Path>): set<Path> { set i | 0 <= i < |ws| :: ws[i] }

  ghost predicate AllDifferent(ws: seq<Path>) { forall i, j :: 0 <= i < j < |ws| ==> ws[i] != ws[j] }

  lemma {:induction false} PathsCount(ws: seq<Path>)
    requires AllDifferent(ws)
    ensures |PathsIn(ws)| == |ws|
  {
    if ws != [] {
      var n := |ws| - 1;
      PathsCount(ws[..n]);
      assert PathsIn(ws) == PathsIn(ws[..n]) + {ws[n]};
    }
  }

  lemma {:induction false} WordsDiffer(t: Tree)
    ensures AllDifferent(Words(t))
  {
    if t.Branch? {
      WordsDiffer(t.zero);
      WordsDiffer(t.one);
      var n := |Words(t.zero)|;
      forall i, j | 0 <= i < j < |Words(t)| ensures Words(t)[i] != Words(t)[j] {
        if j < n {
          assert Words(t)[i][1..] == Words(t.zero)[i] && Words(t)[j][1..] == Words(t.zero)[j];
        } else if i >= n {
          assert Words(t)[i][1..] == Words(t.one)[i - n] && Words(t)[j][1..] == Words(t.one)[j - n];
        } else {
          assert !Words(t)[i][0] && Words(t)[j][0];
        }
      }
    }
  }

  /** The tree of a code has as many leaves as there are symbols. */
  lemma LeavesAreSymbols(t: Tree, codes: seq<Path>)
    requires Codes(t, codes)
    ensures |Words(t)| == |codes|
  {
    hide At, Words, Labels;
    var words := Words(t);
    WordsDiffer(t);
    PathsCount(words);
    PathsCount(codes);
    forall p ensures p in PathsIn(words) <==> p in PathsIn(codes) {
      if p in PathsIn(words) {
        var i :| 0 <= i < |words| && words[i] == p;
        WordLeads(t, i);
        assert codes[At(t, p).value.sym] == p;
      }
      if p in PathsIn(codes) {
        var s :| 0 <= s < |codes| && codes[s] == p;
        var i := LeafHasWord(t, p);
      }
    }
    assert PathsIn(words) == PathsIn(codes);
  }

  /** A suitable code has 256 states, which fit a byte. */
  lemma StatesFitByte(t: Tree, codes: seq<Path>)
    requires Suitable(t, codes)
    ensures Count(t) == 256
  {
    hide Codes, Words;
    LeavesAreSymbols(t, codes);
    RowCount(t);
  }
}

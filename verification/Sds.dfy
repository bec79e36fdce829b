/** String quoting and splitting of deps/hiredis/sds.c. Strings are byte strings: a `char` below 256
    stands for a byte, and '\0' past the end of a line is the terminator of a C string. */
module Sds {
  import opened HexDigits
  import opened Options

  const NUL: char := '\0'
  const BELL: char := 7 as char
  const BACKSPACE: char := 8 as char

  predicate Bytes(s: string) { forall i :: 0 <= i < |s| ==> s[i] as int < 256 }

  /** isspace and isprint of the C locale. */
  predicate IsSpace(c: char) { c == ' ' || 9 <= c as int <= 13 }
  predicate IsPrint(c: char) { 32 <= c as int <= 126 }

  // ---- Quoting --------------------------------------------------------------------------------

  function ReprChar(c: char): string
    requires c as int < 256
  {
    if c == '\\' || c == '"' then ['\\', c]
    else if c == '\n' then "\\n"
    else if c == '\r' then "\\r"
    else if c == '\t' then "\\t"
    else if c == BELL then "\\a"
    else if c == BACKSPACE then "\\b"
    else if IsPrint(c) then [c]
    else ['\\', 'x', HexDigit(c as int / 16), HexDigit(c as int % 16)]
  }

  function ReprBody(s: string): string
    requires Bytes(s)
  {
    if s == "" then "" else ReprBody(s[..|s| - 1]) + ReprChar(s[|s| - 1])
  }

  function Repr(s: string): string
    requires Bytes(s)
  {
    "\"" + ReprBody(s) + "\""
  }

  /** sdscatrepr */
  method CatRepr(s: string, p: string) returns (r: string)
    requires Bytes(p)
    ensures r == s + Repr(p)
  {
    hide ReprChar;
    r := s + "\"";
    for i := 0 to |p|
      invariant r == s + ("\"" + ReprBody(p[..i]))
    {
      assert p[..i + 1][..i] == p[..i];
      ghost var body := ReprBody(p[..i]);
      assert s + ("\"" + body) + ReprChar(p[i]) == s + ("\"" + (body + ReprChar(p[i])));
      r := r + ReprChar(p[i]);
    }
    assert p[..|p|] == p;
    r := r + "\"";
  }

  // ---- Joining --------------------------------------------------------------------------------

  function Join(argv: seq<string>, sep: string): string {
    if argv == [] then "" else if |argv| == 1 then argv[0] else argv[0] + (sep + Join(argv[1..], sep))
  }

  lemma {:induction false} JoinSnoc(argv: seq<string>, last: string, sep: string)
    requires argv != []
    ensures Join(argv + [last], sep) == Join(argv, sep) + sep + last
  {
    var all := argv + [last];
    assert all[1..] == argv[1..] + [last];
    if |argv| > 1 {
      JoinSnoc(argv[1..], last, sep);
    } else {
      assert all[1..] == [last];
    }
  }

  /** sdsjoinsds */
  method JoinSds(argv: seq<string>, sep: string) returns (join: string)
    ensures join == Join(argv, sep)
  {
    join := "";
    for j := 0 to |argv|
      invariant join == Join(argv[..j], sep) + (if 0 < j < |argv| then sep else "")
    {
      assert argv[..j + 1] == argv[..j] + [argv[j]];
      if j > 0 {
        JoinSnoc(argv[..j], argv[j], sep);
      }
      join := join + argv[j];
      if j != |argv| - 1 {
        join := join + sep;
      }
    }
    assert argv[..|argv|] == argv;
  }

  // ---- Splitting on a separator -----------------------------------------------------------------

  predicate SepAt(s: string, j: nat, sep: string) { j + |sep| <= |s| && s[j..j + |sep|] == sep }

  /** The least position at or after `j` where the separator starts, or the length of `s`. */
  function FirstSep(s: string, sep: string, j: nat): (k: nat)
    requires j <= |s|
    ensures j <= k <= |s|
    ensures k == |s| || SepAt(s, k, sep)
    ensures forall i :: j <= i < k ==> !SepAt(s, i, sep)
    decreases |s| - j
  {
    if j == |s| || SepAt(s, j, sep) then j else FirstSep(s, sep, j + 1)
  }

  /** The pieces between separators taken from left to right without overlap. */
  function Split(s: string, sep: string): (tokens: seq<string>)
    requires sep != ""
    ensures tokens != []
    decreases |s|
  {
    var k := FirstSep(s, sep, 0);
    if k == |s| then [s] else [s[..k]] + Split(s[k + |sep|..], sep)
  }

  lemma {:induction false} JoinSplit(s: string, sep: string)
    requires sep != ""
    ensures Join(Split(s, sep), sep) == s
    decreases |s|
  {
    var k := FirstSep(s, sep, 0);
    if k < |s| {
      JoinSplit(s[k + |sep|..], sep);
      assert Split(s, sep)[1..] == Split(s[k + |sep|..], sep);
      assert s == s[..k] + (s[k..k + |sep|] + s[k + |sep|..]);
    }
  }

  /** No piece contains the separator. */
  lemma {:induction false} SplitIsSeparatorFree(s: string, sep: string, i: nat, j: nat)
    requires sep != "" && i < |Split(s, sep)|
    ensures !SepAt(Split(s, sep)[i], j, sep)
    decreases |s|
  {
    hide SepAt, FirstSep;
    var k := FirstSep(s, sep, 0);
    if k < |s| { SepFits(s, k, sep); }
    if k < |s| && i > 0 {
      SplitIsSeparatorFree(s[k + |sep|..], sep, i - 1, j);
    } else {
      assert s[..|s|] == s;
      SepAtPrefix(s, k, j, sep);
    }
  }

  lemma SepAtPrefix(s: string, k: nat, j: nat, sep: string)
    requires k <= |s| && sep != ""
    ensures SepAt(s[..k], j, sep) ==> j < k && SepAt(s, j, sep)
  {
    if j + |sep| <= k {
      assert s[..k][j..j + |sep|] == s[j..j + |sep|];
    }
  }

  lemma SepAtSuffix(s: string, start: nat, i: nat, sep: string)
    requires start <= |s|
    ensures SepAt(s[start..], i, sep) == SepAt(s, start + i, sep)
  {
    if start + i + |sep| <= |s| {
      assert s[start..][i..i + |sep|] == s[start + i..start + i + |sep|];
    }
  }

  lemma SplitAt(t: string, sep: string, f: nat)
    requires sep != "" && FirstSep(t, sep, 0) == f
    ensures f == |t| ==> Split(t, sep) == [t]
    ensures f < |t| ==> f + |sep| <= |t| && Split(t, sep) == [t[..f]] + Split(t[f + |sep|..], sep)
  {
    hide SepAt, FirstSep;
    if f < |t| { SepFits(t, f, sep); }
  }

  /** No separator starts in a piece before the one that follows it, and none in the last piece. */
  predicate Separable(ps: seq<string>, sep: string)
    requires ps != [] && sep != ""
    decreases |ps|
  {
    if |ps| == 1 then FirstSep(ps[0], sep, 0) == |ps[0]|
    else FirstSep(ps[0] + sep, sep, 0) == |ps[0]| && Separable(ps[1..], sep)
  }

  lemma SameFirstSep(p: string, sep: string, rest: string)
    requires sep != ""
    ensures FirstSep(p + sep + rest, sep, 0) == FirstSep(p + sep, sep, 0) <= |p|
  {
    var s, t := p + sep + rest, p + sep;
    forall i | 0 <= i <= |p| ensures SepAt(s, i, sep) == SepAt(t, i, sep) {
      assert s[i..i + |sep|] == t[i..i + |sep|];
    }
    assert t[|p|..|p| + |sep|] == sep && SepAt(t, |p|, sep);
  }

  /** Splitting undoes joining exactly for such pieces. */
  lemma {:induction false} SplitJoin(ps: seq<string>, sep: string)
    requires ps != [] && sep != ""
    ensures Split(Join(ps, sep), sep) == ps <==> Separable(ps, sep)
    decreases |ps|
  {
    hide FirstSep, Split;
    if |ps| == 1 {
      assert ps == [ps[0]];
      SplitAt(ps[0], sep, FirstSep(ps[0], sep, 0));
    } else {
      var p, rest := ps[0], Join(ps[1..], sep);
      var s := Join(ps, sep);
      assert s == p + sep + rest && ps == [p] + ps[1..];
      SameFirstSep(p, sep, rest);
      SplitJoin(ps[1..], sep);
      var k := FirstSep(s, sep, 0);
      SplitAt(s, sep, k);
      if k == |p| {
        assert s[..k] == p && s[k + |sep|..] == rest;
        assert ([p] + Split(rest, sep))[1..] == Split(rest, sep);
      } else {
        assert Split(s, sep)[0] == s[..k] != p;
      }
    }
  }

  /** A separator that overlaps a piece is found too early. */
  lemma JoinNotUndone()
    ensures Split(Join(["a", "b"], "aa"), "aa") != ["a", "b"]
  {
    var ps := ["a", "b"];
    SplitJoin(ps, "aa");
    assert ps[0] + "aa" == "aaa" && SepAt("aaa", 0, "aa");
  }

  lemma FirstSepHere(s: string, sep: string, start: nat, k: nat)
    requires sep != "" && start <= k <= |s| && (k == |s| || SepAt(s, k, sep))
    requires forall i :: start <= i < k ==> !SepAt(s, i, sep)
    ensures FirstSep(s[start..], sep, 0) == k - start
  {
    hide SepAt, FirstSep;
    var t := s[start..];
    var f := FirstSep(t, sep, 0);
    if f < k - start {
      SepAtSuffix(s, start, f, sep);
    } else if f > k - start {
      SepAtSuffix(s, start, k - start, sep);
    }
  }

  /** Splitting the rest of a string whose first separator, if any, is at `k`. */
  lemma SplitHere(s: string, sep: string, start: nat, k: nat)
    requires sep != "" && start <= k <= |s| && (k == |s| || SepAt(s, k, sep))
    requires forall i :: start <= i < k ==> !SepAt(s, i, sep)
    ensures k == |s| ==> Split(s[start..], sep) == [s[start..]]
    ensures k < |s| ==> Split(s[start..], sep) == [s[start..k]] + Split(s[k + |sep|..], sep)
  {
    hide SepAt, FirstSep, Split;
    var t, f := s[start..], k - start;
    FirstSepHere(s, sep, start, k);
    SplitAt(t, sep, f);
    if k < |s| {
      SepFits(s, k, sep);
      assert t[f + |sep|..] == s[k + |sep|..] && t[..f] == s[start..k];
    }
  }

  lemma SepFits(s: string, k: nat, sep: string)
    requires SepAt(s, k, sep)
    ensures k + |sep| <= |s|
  {
  }

  /** sdssplitlen: NULL for an empty separator, no token for an empty string. */
  method SplitLen(s: string, sep: string) returns (tokens: Option<seq<string>>)
    ensures tokens == if sep == "" then None else if s == "" then Some([]) else Some(Split(s, sep))
    ensures tokens.Some? ==> Join(tokens.value, sep) == s
  {
    hide Split, Join;
    if |sep| < 1 {
      return None;
    }
    if |s| == 0 {
      JoinEmpty(sep);
      return Some([]);
    }
    var out: seq<string> := [];
    var start, j := 0, 0;
    assert s[0..] == s;
    while j < |s| - (|sep| - 1)
      invariant 0 <= start <= j <= |s|
      invariant Split(s, sep) == out + Split(s[start..], sep)
      invariant forall i :: start <= i < j ==> !SepAt(s, i, sep)
      decreases |s| - j
    {
      if s[j..j + |sep|] == sep {
        SplitHere(s, sep, start, j);
        assert out + ([s[start..j]] + Split(s[j + |sep|..], sep)) == (out + [s[start..j]]) + Split(s[j + |sep|..], sep);
        out := out + [s[start..j]];
        start := j + |sep|;
        j := j + |sep| - 1;
      }
      j := j + 1;
    }
    SplitHere(s, sep, start, |s|);
    tokens := Some(out + [s[start..]]);
    JoinSplit(s, sep);
  }

  lemma JoinEmpty(sep: string)
    ensures Join([], sep) == ""
  {
  }

  // ---- Splitting a line into arguments ------------------------------------------------------------

  datatype Mode = Bare | Quoted | SingleQuoted

  /** The byte at offset `k` of a C string. */
  function At(s: string, k: nat): char { if k < |s| then s[k] else NUL }

  function Unescape(c: char): char {
    if c == 'n' then '\n' else if c == 'r' then '\r' else if c == 't' then '\t'
    else if c == 'b' then BACKSPACE else if c == 'a' then BELL else c
  }

  predicate HexEscape(s: string) {
    At(s, 0) == '\\' && At(s, 1) == 'x' && HexVal(At(s, 2)).Some? && HexVal(At(s, 3)).Some?
  }

  function HexByte(s: string): char
    requires HexEscape(s)
  {
    (HexVal(At(s, 2)).value * 16 + HexVal(At(s, 3)).value) as char
  }

  /** One turn of the scanner: use up `used` bytes and either go on with `text` appended, or stop. */
  datatype Turn = Go(used: nat, text: string, mode: Mode) | End(used: nat) | Bad

  function Scan(s: string, mode: Mode): (t: Turn)
    ensures t.Go? ==> 0 < t.used <= |s|
    ensures t.End? ==> t.used <= |s| && (s != "" && s[0] != NUL ==> 0 < t.used)
  {
    var c := At(s, 0);
    match mode
    case Quoted =>
      if HexEscape(s) then Go(4, [HexByte(s)], Quoted)
      else if c == '\\' && At(s, 1) != NUL then Go(2, [Unescape(s[1])], Quoted)
      else if c == '"' then if At(s, 1) != NUL && !IsSpace(At(s, 1)) then Bad else End(1)
      else if c == NUL then Bad
      else Go(1, [c], Quoted)
    case SingleQuoted =>
      if c == '\\' && At(s, 1) == '\'' then Go(2, "'", SingleQuoted)
      else if c == '\'' then if At(s, 1) != NUL && !IsSpace(At(s, 1)) then Bad else End(1)
      else if c == NUL then Bad
      else Go(1, [c], SingleQuoted)
    case Bare =>
      if c == NUL then End(0)
      else if c == ' ' || c == '\n' || c == '\r' || c == '\t' then End(1)
      else if c == '"' then Go(1, "", Quoted)
      else if c == '\'' then Go(1, "", SingleQuoted)
      else Go(1, [c], Bare)
  }

  /** One token from the front of `s`: its text and how many bytes it uses; None for a syntax error. */
  function Token(s: string, mode: Mode, current: string): (r: Option<(string, nat)>)
    ensures r.Some? ==> r.value.1 <= |s| && (s != "" && s[0] != NUL ==> 0 < r.value.1)
    decreases |s|
  {
    match Scan(s, mode)
    case Bad => None
    case End(n) => Some((current, n))
    case Go(n, text, m) =>
      Shift(Token(s[n..], m, current + text), n)
  }

  function Shift(r: Option<(string, nat)>, n: nat): Option<(string, nat)> {
    if r.None? then None else Some((r.value.0, n + r.value.1))
  }

  /** The number of blanks in front. */
  function Blanks(s: string): (n: nat)
    ensures n <= |s| && (n == |s| || !IsSpace(s[n]))
  {
    if s != "" && IsSpace(s[0]) then 1 + Blanks(s[1..]) else 0
  }

  predicate CString(s: string) { forall i :: 0 <= i < |s| ==> s[i] != NUL }

  /** The arguments on a line; None when a quote is unbalanced or followed by a non-blank. */
  function Args(s: string): Option<seq<string>>
    requires CString(s)
    decreases |s|
  {
    var t := s[Blanks(s)..];
    if t == "" then Some([]) else
    match Token(t, Bare, "")
    case None => None
    case Some((token, n)) =>
      Cons(token, Args(t[n..]))
  }

  function Cons(token: string, more: Option<seq<string>>): Option<seq<string>> {
    if more.None? then None else Some([token] + more.value)
  }

  /** The inner loop of sdssplitargs: one token starting at `start`, and the position after it. */
  method NextToken(line: string, start: nat) returns (token: Option<(string, nat)>)
    requires start <= |line|
    ensures token == Shift(Token(line[start..], Bare, ""), start)
  {
    hide Scan;
    var p, current, mode := start, "", Bare;
    while true
      invariant start <= p <= |line|
      invariant Shift(Token(line[start..], Bare, ""), start) == Shift(Token(line[p..], mode, current), p)
      decreases |line| - p
    {
      ghost var s := line[p..];
      match Scan(line[p..], mode) {
        case Bad =>
          return None;
        case End(n) =>
          return Some((current, p + n));
        case Go(n, text, m) =>
          assert s[n..] == line[p + n..];
          p, current, mode := p + n, current + text, m;
      }
    }
  }

  /** Unfolds `Args` at a position that is not blank. */
  lemma ArgsAt(line: string, p: nat)
    requires CString(line) && p < |line| && !IsSpace(line[p])
    ensures Token(line[p..], Bare, "").None? ==> Args(line[p..]) == None
    ensures Token(line[p..], Bare, "").Some? ==>
              var (token, n) := Token(line[p..], Bare, "").value;
              p + n <= |line| && 0 < n && Args(line[p..]) == Cons(token, Args(line[p + n..]))
  {
    hide Token;
    var s := line[p..];
    assert s[0..] == s && s[0] == line[p];
    var r := Token(s, Bare, "");
    if r.Some? {
      assert s[r.value.1..] == line[p + r.value.1..];
    }
  }

  /** sdssplitargs: skip blanks, take a token, until the line ends or a token is malformed. */
  method SplitArgs(line: string) returns (argv: Option<seq<string>>)
    requires CString(line)
    ensures argv == Args(line)
  {
    hide Token, Scan, Args;
    var p, vector := 0, [];
    assert line[0..] == line;
    ghost var rest := Args(line);
    assert rest.Some? ==> [] + rest.value == rest.value;
    while true
      invariant 0 <= p <= |line| && rest == Args(line[p..])
      invariant Args(line) == if rest.None? then None else Some(vector + rest.value)
      decreases |line| - p
    {
      p := SkipBlanks(line, p);
      if p == |line| {
        assert rest == Some([]) && vector + [] == vector;
        return Some(vector);
      }
      ArgsAt(line, p);
      var token := NextToken(line, p);
      if token.None? {
        return None;
      }
      p := token.value.1;
      rest := Args(line[p..]);
      assert rest.Some? ==> vector + ([token.value.0] + rest.value) == (vector + [token.value.0]) + rest.value;
      vector := vector + [token.value.0];
    }
  }

  method SkipBlanks(line: string, start: nat) returns (p: nat)
    requires start <= |line| && CString(line)
    ensures start <= p <= |line| && p == start + Blanks(line[start..])
    ensures Args(line[start..]) == if p == |line| then Some([]) else Args(line[p..])
    ensures p < |line| ==> !IsSpace(line[p])
  {
    hide Token;
    p := start;
    while p < |line| && IsSpace(line[p])
      invariant start <= p <= |line|
      invariant start + Blanks(line[start..]) == p + Blanks(line[p..])
    {
      assert line[p..][1..] == line[p + 1..];
      p := p + 1;
    }
    assert line[start..][Blanks(line[start..])..] == line[p..] == line[p..][Blanks(line[p..])..];
  }

  // ---- Quoting and splitting undo each other --------------------------------------------------------

  lemma ScanRepr(c: char, tail: string)
    requires c as int < 256
    ensures Scan(ReprChar(c) + tail, Quoted) == Go(|ReprChar(c)|, [c], Quoted)
    ensures CString(ReprChar(c))
  {
    var s := ReprChar(c) + tail;
    assert forall k: nat :: k < |ReprChar(c)| ==> At(s, k) == ReprChar(c)[k];
  }

  lemma {:induction false} ReprBodyCons(s: string)
    requires Bytes(s) && s != ""
    ensures ReprBody(s) == ReprChar(s[0]) + ReprBody(s[1..])
  {
    hide ReprChar;
    var t, last := s[..|s| - 1], ReprChar(s[|s| - 1]);
    if |s| > 1 {
      ReprBodyCons(t);
      assert s[1..][..|s| - 2] == t[1..];
      assert (ReprChar(s[0]) + ReprBody(t[1..])) + last == ReprChar(s[0]) + (ReprBody(t[1..]) + last);
    } else {
      assert t == "" && s[1..] == "";
    }
  }

  lemma ReprNothing()
    ensures ReprBody("") == ""
  {
  }

  lemma {:induction false} ReprIsCString(s: string)
    requires Bytes(s)
    ensures CString(Repr(s))
  {
    if s != "" {
      ReprIsCString(s[..|s| - 1]);
      ScanRepr(s[|s| - 1], "");
      assert CString(ReprBody(s[..|s| - 1])) by {
        var r := Repr(s[..|s| - 1]);
        assert r[1..|r| - 1] == ReprBody(s[..|s| - 1]);
      }
    }
  }

  lemma ScanClose(tail: string)
    requires tail == "" || IsSpace(tail[0])
    ensures Scan("\"" + tail, Quoted) == End(1)
  {
    var s := "\"" + tail;
    assert At(s, 0) == '"' && At(s, 1) == At(tail, 0);
  }

  /** A quoted string scans back to its text and stops right after the closing quote. */
  lemma {:induction false} TokenRepr(s: string, current: string, tail: string)
    requires Bytes(s) && (tail == "" || IsSpace(tail[0]))
    ensures Token(ReprBody(s) + ("\"" + tail), Quoted, current) == Some((current + s, |ReprBody(s)| + 1))
    decreases |s|
  {
    hide ReprChar, Scan, ReprBody;
    if s == "" {
      ReprNothing();
      assert ReprBody(s) + ("\"" + tail) == "\"" + tail;
      ScanClose(tail);
      assert current + s == current;
    } else {
      var c, rest := s[0], s[1..];
      ReprBodyCons(s);
      ScanRepr(c, ReprBody(rest) + ("\"" + tail));
      var line := ReprChar(c) + (ReprBody(rest) + ("\"" + tail));
      assert ReprBody(s) + ("\"" + tail) == line;
      assert line[|ReprChar(c)|..] == ReprBody(rest) + ("\"" + tail);
      TokenRepr(rest, current + [c], tail);
      assert current + [c] + rest == current + s;
    }
  }

  predicate AllBytes(argv: seq<string>) { forall i :: 0 <= i < |argv| ==> Bytes(argv[i]) }

  function Quote(argv: seq<string>): seq<string>
    requires AllBytes(argv)
  {
    seq(|argv|, i requires 0 <= i < |argv| => Repr(argv[i]))
  }

  lemma QuotedNone()
    ensures Join(Quote([]), " ") == "" && CString("") && CString(" ") && Args("") == Some([])
  {
  }

  lemma CStringAppend(a: string, b: string)
    requires (a == " " || CString(a)) && (b == "" || CString(b))
    ensures CString(a + b)
  {
  }

  lemma QuotedFirst(argv: seq<string>)
    requires AllBytes(argv) && argv != []
    ensures Join(Quote(argv), " ") == Repr(argv[0]) + if |argv| == 1 then "" else " " + Join(Quote(argv[1..]), " ")
  {
    hide Repr;
    assert Quote(argv)[1..] == Quote(argv[1..]);
  }

  /** Every list of byte strings survives quoting, joining with blanks and splitting. */
  lemma {:induction false} QuotedArgsRoundTrip(argv: seq<string>)
    requires AllBytes(argv)
    ensures CString(Join(Quote(argv), " ")) && Args(Join(Quote(argv), " ")) == Some(argv)
    decreases |argv|
  {
    hide Repr, ReprBody, Token, Join, Quote, Args, CString;
    if argv == [] {
      QuotedNone();
    } else {
      QuotedFirst(argv);
      QuotedArgsRoundTrip(argv[1..]);
      ReprIsCString(argv[0]);
      var rest := Join(Quote(argv[1..]), " ");
      if |argv| == 1 {
        assert argv[1..] == [];
        QuotedNone();
        CStringAppend(Repr(argv[0]), "");
        FirstArg(argv[0], "");
      } else {
        CStringAppend(" ", rest);
        CStringAppend(Repr(argv[0]), " " + rest);
        LeadingBlank(rest);
        FirstArg(argv[0], " " + rest);
      }
      assert argv == [argv[0]] + argv[1..];
    }
  }

  lemma TokenOfRepr(arg: string, tail: string)
    requires Bytes(arg) && (tail == "" || IsSpace(tail[0]))
    ensures Token(Repr(arg) + tail, Bare, "") == Some((arg, |Repr(arg)|))
  {
    hide ReprBody;
    var line := Repr(arg) + tail;
    assert line[1..] == ReprBody(arg) + ("\"" + tail);
    TokenRepr(arg, "", tail);
    assert Scan(line, Bare) == Go(1, "", Quoted);
    assert "" + "" == "" && "" + arg == arg;
  }

  lemma FirstArg(arg: string, tail: string)
    requires Bytes(arg) && CString(tail) && (tail == "" || IsSpace(tail[0])) && CString(Repr(arg) + tail)
    ensures Args(Repr(arg) + tail) == Cons(arg, Args(tail))
  {
    hide Token, ReprBody, Args;
    var line := Repr(arg) + tail;
    TokenOfRepr(arg, tail);
    assert line[0..] == line && line[|Repr(arg)|..] == tail;
    ArgsAt(line, 0);
  }

  lemma LeadingBlank(s: string)
    requires CString(s)
    ensures CString(" " + s) && Args(" " + s) == Args(s)
  {
    var t := " " + s;
    assert t[1..] == s;
    assert t[Blanks(t)..] == s[Blanks(s)..];
  }

  /** The same for the code: sdscatrepr each argument, sdsjoinsds them, sdssplitargs the line. */
  method QuoteAndSplit(argv: seq<string>) returns (back: Option<seq<string>>)
    requires AllBytes(argv)
    ensures back == Some(argv)
  {
    var quoted := [];
    for i := 0 to |argv|
      invariant quoted == Quote(argv[..i])
    {
      assert argv[..i + 1][..i] == argv[..i];
      var q := CatRepr("", argv[i]);
      assert "" + Repr(argv[i]) == Repr(argv[i]);
      quoted := quoted + [q];
    }
    assert argv[..|argv|] == argv;
    var line := JoinSds(quoted, " ");
    QuotedArgsRoundTrip(argv);
    back := SplitArgs(line);
  }
}

/** Lines of text protocols: where the first line ends. */
module Lines {
  import opened Options

  /** The first carriage return that is followed by a line feed. */
  function Crlf(s: string): (r: Option<nat>)
    ensures r.Some? ==> r.value + 2 <= |s| && s[r.value] == '\r' && s[r.value + 1] == '\n'
    ensures r.Some? ==> forall i :: 0 <= i < r.value ==> !(s[i] == '\r' && s[i + 1] == '\n')
  {
    if |s| < 2 then None
    else if s[0] == '\r' && s[1] == '\n' then Some(0)
    else var r := Crlf(s[1..]); if r.Some? then Some(r.value + 1) else None
  }

  lemma {:induction false} CrlfStable(s: string, more: string)
    requires Crlf(s).Some?
    ensures Crlf(s + more) == Crlf(s)
  {
    if !(s[0] == '\r' && s[1] == '\n') {
      assert (s + more)[1..] == s[1..] + more;
      CrlfStable(s[1..], more);
    }
  }

  lemma {:induction false} CrlfNone(s: string)
    requires forall i :: 0 <= i < |s| - 1 ==> !(s[i] == '\r' && s[i + 1] == '\n')
    ensures Crlf(s).None?
  {
    if |s| >= 2 { CrlfNone(s[1..]); }
  }

  lemma {:induction false} CrlfAt(s: string, i: nat)
    requires i + 2 <= |s| && s[i] == '\r' && s[i + 1] == '\n'
    requires forall j :: 0 <= j < i ==> !(s[j] == '\r' && s[j + 1] == '\n')
    ensures Crlf(s) == Some(i)
  {
    if i > 0 { CrlfAt(s[1..], i - 1); }
  }
}

/** Transactions with the neverbleed process: the queues of a thread (src/main.c), from which requests are written one
    at a time and to which responses come back, and the process itself (deps/neverbleed/neverbleed.c), which may finish
    requests in any order and answers them in the order they came. */
module Neverbleed {
  import opened Sequences

  datatype Tx = Tx(id: nat, responseless: bool)

  /** What the process computed for the request of `of`. */
  datatype Response = Response(of: Tx)

  const MAX_IN_FLIGHT := 200

  /** The transactions that get a response. */
  function Bearing(s: seq<Tx>): seq<Tx> {
    if s == [] then [] else (if s[0].responseless then [] else [s[0]]) + Bearing(s[1..])
  }

  lemma {:induction false} BearingAppend(s: seq<Tx>, t: seq<Tx>)
    ensures Bearing(s + t) == Bearing(s) + Bearing(t)
  {
    if s == [] {
      assert s + t == t;
    } else {
      assert (s + t)[1..] == s[1..] + t;
      BearingAppend(s[1..], t);
    }
  }

  lemma BearingOne(t: Tx)
    ensures Bearing([t]) == if t.responseless then [] else [t]
  {
    assert [t][1..] == [];
  }

  predicate Unique(s: seq<Tx>) { forall i, j :: 0 <= i < j < |s| ==> s[i] != s[j] }

  lemma UniqueSnoc(s: seq<Tx>, t: Tx)
    requires Unique(s) && t !in s
    ensures Unique(s + [t])
  {
  }

  lemma UniqueTail(r: seq<Tx>, w: seq<Tx>)
    requires r != [] && Unique(r + w)
    ensures Unique(r[1..] + w)
  {
    assert r[1..] + w == (r + w)[1..];
  }

  lemma MoveFirst(r: seq<Tx>, w: seq<Tx>)
    requires w != [] && Unique(r + w)
    ensures Unique(r + w[1..]) && Unique((r + [w[0]]) + w[1..])
  {
    assert (r + [w[0]]) + w[1..] == r + w;
    forall i, j | 0 <= i < j < |r + w[1..]| ensures (r + w[1..])[i] != (r + w[1..])[j] {
      var a, b := if i < |r| then i else i + 1, if j < |r| then j else j + 1;
      assert (r + w)[a] != (r + w)[b];
    }
  }

  lemma UniqueNext(r: seq<Tx>, w: seq<Tx>, more: seq<Tx>)
    requires more != [] && Unique(r + w + more)
    ensures more[0] !in r && more[0] !in w && Unique(r + (w + [more[0]]) + more[1..])
  {
    assert r + (w + [more[0]]) + more[1..] == r + w + more;
    var all := r + w + more;
    assert all[|r| + |w|] == more[0];
    forall x | x in r ensures x != more[0] { var i :| 0 <= i < |r| && r[i] == x; assert all[i] == x; }
    forall x | x in w ensures x != more[0] { var i :| 0 <= i < |w| && w[i] == x; assert all[|r| + i] == x; }
  }

  lemma UniquePrefix(a: seq<Tx>, b: seq<Tx>)
    requires Unique(a + b)
    ensures Unique(a)
  {
    forall i, j | 0 <= i < j < |a| ensures a[i] != a[j] { assert (a + b)[i] != (a + b)[j]; }
  }

  /** After the first of `r`, reaction `n` is submitted. */
  lemma NextReaction(r: seq<Tx>, w: seq<Tx>, reactions: seq<seq<Tx>>, n: nat)
    requires r != [] && n < |reactions| && Unique(r + w + Concat(reactions[n..]))
    ensures Unique(r[1..] + w) && Unique(r[1..] + w + reactions[n])
    ensures Unique(r[1..] + (w + reactions[n]) + Concat(reactions[n + 1..]))
    ensures Concat(reactions[..n + 1]) == Concat(reactions[..n]) + reactions[n]
  {
    hide Unique;
    var x, post := reactions[n], Concat(reactions[n + 1..]);
    assert reactions[n..][1..] == reactions[n + 1..];
    assert r + w + (x + post) == r + (w + (x + post));
    UniqueTail(r, w + (x + post));
    assert r[1..] + (w + (x + post)) == (r[1..] + w + x) + post == r[1..] + (w + x) + post;
    UniquePrefix(r[1..] + w + x, post);
    UniquePrefix(r[1..] + w, x);
    ConcatTake(reactions, n);
  }

  // ---- The process --------------------------------------------------------------------------------------

  /** A request being worked on, or one whose response waits for those before it. */
  datatype Job = Job(tx: Tx, processing: bool)

  function Owners(jobs: seq<Job>): seq<Tx> { if jobs == [] then [] else [jobs[0].tx] + Owners(jobs[1..]) }

  function Whose(rs: seq<Response>): seq<Tx> { if rs == [] then [] else [rs[0].of] + Whose(rs[1..]) }

  function Replies(jobs: seq<Job>): seq<Response> {
    if jobs == [] then [] else [Response(jobs[0].tx)] + Replies(jobs[1..])
  }

  lemma {:induction false} OwnersAppend(a: seq<Job>, b: seq<Job>)
    ensures Owners(a + b) == Owners(a) + Owners(b)
  {
    if a == [] {
      assert a + b == b;
    } else {
      assert (a + b)[1..] == a[1..] + b;
      OwnersAppend(a[1..], b);
    }
  }

  lemma {:induction false} WhoseAppend(a: seq<Response>, b: seq<Response>)
    ensures Whose(a + b) == Whose(a) + Whose(b)
  {
    if a == [] {
      assert a + b == b;
    } else {
      assert (a + b)[1..] == a[1..] + b;
      WhoseAppend(a[1..], b);
    }
  }

  lemma {:induction false} OwnersKept(jobs: seq<Job>, i: nat)
    requires i < |jobs|
    ensures Owners(jobs[i := jobs[i].(processing := false)]) == Owners(jobs)
  {
    var js := jobs[i := jobs[i].(processing := false)];
    if i == 0 {
      assert js[1..] == jobs[1..];
    } else {
      assert js[1..] == jobs[1..][i - 1 := jobs[1..][i - 1].(processing := false)];
      OwnersKept(jobs[1..], i - 1);
    }
  }

  /** How many results in front are there. */
  function Finished(jobs: seq<Job>): (n: nat)
    ensures n <= |jobs|
  {
    if jobs == [] || jobs[0].processing then 0 else 1 + Finished(jobs[1..])
  }

  /** The front of the chain is sent. */
  lemma SentOne(jobs: seq<Job>, rs: seq<Response>)
    requires jobs != []
    ensures Whose(rs + [Response(jobs[0].tx)]) + Owners(jobs[1..]) == Whose(rs) + Owners(jobs)
  {
    WhoseAppend(rs, [Response(jobs[0].tx)]);
    assert [Response(jobs[0].tx)][1..] == [];
    assert Whose(rs) + [jobs[0].tx] + Owners(jobs[1..]) == Whose(rs) + ([jobs[0].tx] + Owners(jobs[1..]));
  }

  lemma SentNone(jobs: seq<Job>, rs: seq<Response>)
    ensures jobs[0..] == jobs && rs + Replies(jobs[..0]) == rs
  {
  }

  lemma {:induction false} RepliesNext(jobs: seq<Job>, n: nat, rs: seq<Response>)
    requires n < |jobs|
    ensures rs + Replies(jobs[..n + 1]) == rs + Replies(jobs[..n]) + [Response(jobs[n].tx)]
  {
    if n > 0 {
      RepliesNext(jobs[1..], n - 1, []);
      assert jobs[..n + 1][1..] == jobs[1..][..n] && jobs[..n][1..] == jobs[1..][..n - 1];
      assert [] + Replies(jobs[1..][..n]) == Replies(jobs[1..][..n]);
      assert [] + Replies(jobs[1..][..n - 1]) == Replies(jobs[1..][..n - 1]);
    } else {
      assert jobs[..1] == [jobs[0]] && [jobs[0]][1..] == [];
    }
  }

  /** Whose responses are sent, and whose will be, in this order. */
  ghost function Owing(responses: seq<Response>, chain: seq<Job>, requests: seq<Tx>): seq<Tx> {
    Whose(responses) + Owners(chain) + Bearing(requests)
  }

  lemma OwingFirst(responses: seq<Response>, chain: seq<Job>, requests: seq<Tx>)
    requires responses != []
    ensures Owing(responses, chain, requests) == [responses[0].of] + Owing(responses[1..], chain, requests)
  {
    hide Owners, Bearing;
    var rest := Owners(chain) + Bearing(requests);
    assert [responses[0].of] + Whose(responses[1..]) + rest == [responses[0].of] + (Whose(responses[1..]) + rest);
  }

  lemma OwingMore(responses: seq<Response>, chain: seq<Job>, requests: seq<Tx>, t: Tx)
    ensures Owing(responses, chain, requests + [t]) == Owing(responses, chain, requests) + Bearing([t])
  {
    BearingAppend(requests, [t]);
  }

  /** The chain when a request has been read. */
  function Joined(chain: seq<Job>, t: Tx, offload: bool): seq<Job> {
    if t.responseless then chain else chain + [Job(t, offload)]
  }

  lemma OwingTake(responses: seq<Response>, chain: seq<Job>, requests: seq<Tx>, offload: bool)
    requires requests != []
    ensures Owing(responses, Joined(chain, requests[0], offload), requests[1..]) == Owing(responses, chain, requests)
  {
    hide Whose;
    var t := requests[0];
    if t.responseless {
      assert [] + Bearing(requests[1..]) == Bearing(requests[1..]);
    } else {
      OwnersAppend(chain, [Job(t, offload)]);
      assert [Job(t, offload)][1..] == [];
      assert Whose(responses) + (Owners(chain) + [t]) + Bearing(requests[1..])
          == Whose(responses) + Owners(chain) + ([t] + Bearing(requests[1..]));
    }
  }

  class Daemon {
    var requests: seq<Tx>          // sent to it and not yet read
    var chain: seq<Job>            // read and not yet answered
    var responses: seq<Response>   // sent by it and not yet read

    constructor ()
      ensures Valid() && requests == [] && chain == [] && responses == []
    {
      requests, chain, responses := [], [], [];
    }

    /** No response that could go out is held back. */
    predicate Valid()
      reads this
    {
      chain != [] ==> chain[0].processing
    }

    /** Who will read a response from now on, in this order. */
    ghost function Owed(): seq<Tx>
      reads this
    {
      Owing(responses, chain, requests)
    }

    /** send_responses: what is finished goes out, up to the first that is not. */
    method SendResponses()
      modifies this`chain, this`responses
      ensures Valid() && Owed() == old(Owed()) && chain == old(chain)[Finished(old(chain))..]
      ensures responses == old(responses) + Replies(old(chain)[..Finished(old(chain))])
    {
      hide Owners, Whose, Replies;
      ghost var c0, r0, n := chain, responses, 0;
      SentNone(c0, r0);
      while |chain| != 0 && !chain[0].processing
        invariant 0 <= n <= |c0| && chain == c0[n..] && n + Finished(chain) == Finished(c0)
        invariant responses == r0 + Replies(c0[..n]) && Whose(responses) + Owners(chain) == Whose(r0) + Owners(c0)
        decreases |chain|
      {
        SentOne(chain, responses);
        RepliesNext(c0, n, r0);
        responses := responses + [Response(chain[0].tx)];
        chain := chain[1..];
        n := n + 1;
      }
    }

    /** One turn of daemon_conn_thread: a request is read, and its result is there or, offloaded, comes later. */
    method Take(offload: bool)
      requires Valid() && requests != []
      modifies this
      ensures Valid() && Owed() == old(Owed()) && requests == old(requests)[1..]
      ensures var jobs := Joined(old(chain), old(requests)[0], offload);
              chain == jobs[Finished(jobs)..] && responses == old(responses) + Replies(jobs[..Finished(jobs)])
    {
      hide Owing, Replies;
      var t := requests[0];
      OwingTake(responses, chain, requests, offload);
      requests := requests[1..];
      SentNone(chain, responses);
      if t.responseless {
        return;
      }
      chain := chain + [Job(t, offload)];
      SendResponses();
    }

    /** offload_resume and what follows: the work on one of the requests is done. */
    method Finish(i: nat)
      requires Valid() && i < |chain|
      modifies this`chain, this`responses
      ensures Valid() && Owed() == old(Owed()) && (responses == old(responses) <==> i > 0)
      ensures var jobs := old(chain)[i := old(chain)[i].(processing := false)];
              chain == jobs[Finished(jobs)..] && responses == old(responses) + Replies(jobs[..Finished(jobs)])
    {
      SentNone(chain[i := chain[i].(processing := false)], responses);
      OwnersKept(chain, i);
      chain := chain[i := chain[i].(processing := false)];
      SendResponses();
    }
  }

  // ---- The thread -----------------------------------------------------------------------------------------

  /** A step that is not the thread's: its write reaches the process, or the process works. */
  datatype Work = Deliver | Serve(offload: bool) | Done(i: nat)

  /** A response and the transaction it was given to. */
  datatype Answer = Answer(to: Tx, response: Response)

  /** What can happen: a request is submitted, something happens elsewhere, a write is complete, or responses can be
      read. */
  datatype Event =
      Request(t: Tx) | Other(w: Work) | Written | Readable(work: seq<seq<Work>>, reactions: seq<seq<Tx>>)

  /** The thread and the process at one moment. */
  datatype Moment = Moment(writeQueue: seq<Tx>, readQueue: seq<Tx>, writing: bool, delivered: bool, reading: bool,
                           requests: seq<Tx>, chain: seq<Job>, responses: seq<Response>,
                           submitted: seq<Tx>, written: seq<Tx>, answers: seq<Answer>)

  const START := Moment([], [], false, false, false, [], [], [], [], [], [])

  predicate Possible(s: Moment, e: Event) {
    match e
    case Request(t) => t !in s.writeQueue && t !in s.readQueue
    case Other(Deliver) => s.writing && !s.delivered
    case Other(Serve(_)) => s.requests != []
    case Other(Done(i)) => i < |s.chain|
    case Written => s.delivered
    case Readable(work, reactions) =>
      && s.reading && s.responses != [] && |work| == |reactions| == |s.readQueue|
      && Unique(s.readQueue + s.writeQueue + Concat(reactions))
  }

  /** The process goes on with these jobs. */
  ghost function Going(s: Moment, jobs: seq<Job>): Moment {
    s.(chain := jobs[Finished(jobs)..], responses := s.responses + Replies(jobs[..Finished(jobs)]))
  }

  /** The responses these transactions should get, given to them. */
  ghost function Own(ts: seq<Tx>): (r: seq<Answer>)
    ensures |r| == |ts|
  {
    if ts == [] then [] else Own(ts[..|ts| - 1]) + [Answer(ts[|ts| - 1], Response(ts[|ts| - 1]))]
  }

  ghost function Submitting(s: Moment, t: Tx): Moment {
    s.(writeQueue := s.writeQueue + [t], submitted := s.submitted + [t],
       writing := s.writing || |s.readQueue| < MAX_IN_FLIGHT)
  }

  /** The first of the write queue has been written: it waits for its response, if it bears one. */
  ghost function Completing(s: Moment): Moment
    requires s.writeQueue != []
  {
    var t, rest := s.writeQueue[0], s.writeQueue[1..];
    var waiting := s.readQueue + if t.responseless then [] else [t];
    s.(writeQueue := rest, readQueue := waiting, written := s.written + [t], delivered := false,
       writing := rest != [] && |waiting| < MAX_IN_FLIGHT, reading := s.reading || !t.responseless)
  }

  /** The first `n` that wait have read their responses; the completions have submitted more. */
  ghost predicate Reading(s: Moment, reactions: seq<seq<Tx>>, n: nat, s': Moment) {
    && 0 < n <= |s.readQueue| && n <= |reactions| && s'.readQueue == s.readQueue[n..] && s'.written == s.written
    && s'.answers == s.answers + Own(s.readQueue[..n]) && (n < |s.readQueue| ==> s'.responses == [])
    && s'.submitted == s.submitted + Concat(reactions[..n]) && s'.writeQueue == s.writeQueue + Concat(reactions[..n])
    && (s'.reading <==> s'.readQueue != []) && (s.delivered ==> s'.delivered)
  }

  /** What an event makes of the queues; what is not possible changes nothing. */
  ghost predicate Follows(s: Moment, e: Event, s': Moment) {
    if !Possible(s, e) then s' == s else
    match e
    case Request(t) => s' == Submitting(s, t)
    case Other(Deliver) =>
      s.writeQueue != [] && s' == s.(delivered := true, requests := s.requests + [s.writeQueue[0]])
    case Other(Serve(offload)) =>
      s' == Going(s.(requests := s.requests[1..]), Joined(s.chain, s.requests[0], offload))
    case Other(Done(i)) => s' == Going(s, s.chain[i := s.chain[i].(processing := false)])
    case Written => s.writeQueue != [] && s' == Completing(s)
    case Readable(_, reactions) => exists n :: Reading(s, reactions, n, s')
  }

  /** The thread and the process were at these moments, with one of the events between each two. */
  ghost predicate IsRun(states: seq<Moment>, events: seq<Event>) {
    && |states| == |events| + 1 && states[0] == START
    && forall i :: 0 <= i < |events| ==> Follows(states[i], events[i], states[i + 1])
  }

  /** So far `n` have read their responses. */
  ghost predicate Partly(s: Moment, reactions: seq<seq<Tx>>, n: nat, s': Moment) {
    && n <= |reactions| == |s.readQueue| && s'.readQueue == s.readQueue[n..] && s'.written == s.written
    && s'.answers == s.answers + Own(s.readQueue[..n]) && (s.delivered ==> s'.delivered)
    && s'.submitted == s.submitted + Concat(reactions[..n]) && s'.writeQueue == s.writeQueue + Concat(reactions[..n])
    && Unique(s'.readQueue + s'.writeQueue + Concat(reactions[n..]))
  }

  lemma PartlyStart(s: Moment, reactions: seq<seq<Tx>>)
    requires |reactions| == |s.readQueue| && Unique(s.readQueue + s.writeQueue + Concat(reactions))
    ensures Partly(s, reactions, 0, s)
  {
    hide Unique;
    assert reactions[0..] == reactions && s.readQueue[0..] == s.readQueue && s.readQueue[..0] == [];
    ConcatStart(reactions);
    assert s.answers + [] == s.answers && s.submitted + [] == s.submitted && s.writeQueue + [] == s.writeQueue;
  }

  lemma PartlyTurn(s: Moment, reactions: seq<seq<Tx>>, n: nat, t: Moment)
    requires Partly(s, reactions, n, t) && t.readQueue != []
    ensures n < |reactions| && Unique(t.readQueue[1..] + t.writeQueue + reactions[n])
  {
    hide Unique, Own;
    NextReaction(t.readQueue, t.writeQueue, reactions, n);
  }

  lemma PartlyNext(s: Moment, reactions: seq<seq<Tx>>, n: nat, t: Moment, t': Moment)
    requires Partly(s, reactions, n, t) && t.readQueue != [] && n < |reactions|
    requires t'.readQueue == t.readQueue[1..] && t'.written == t.written && (t.delivered ==> t'.delivered)
    requires t'.answers == t.answers + [Answer(t.readQueue[0], Response(t.readQueue[0]))]
    requires t'.submitted == t.submitted + reactions[n] && t'.writeQueue == t.writeQueue + reactions[n]
    ensures Partly(s, reactions, n + 1, t')
  {
    hide Unique, Own, Concat;
    NextReaction(t.readQueue, t.writeQueue, reactions, n);
    OwnNext(s.readQueue, n);
    assert s.readQueue[n..][1..] == s.readQueue[n + 1..];
  }

  lemma PartlyAll(s: Moment, reactions: seq<seq<Tx>>, n: nat, t: Moment)
    requires Partly(s, reactions, n, t) && 0 < n && (t.readQueue != [] ==> t.responses == [])
    ensures forall w, r :: (r <==> t.readQueue != []) ==> Reading(s, reactions, n, t.(writing := w, reading := r))
  {
    hide Unique, Own, Concat;
  }

  lemma OwnNext(ts: seq<Tx>, n: nat)
    requires n < |ts|
    ensures Own(ts[..n + 1]) == Own(ts[..n]) + [Answer(ts[n], Response(ts[n]))]
  {
    assert ts[..n + 1][..n] == ts[..n];
  }

  lemma ConcatStart(ss: seq<seq<Tx>>)
    ensures Concat(ss[..0]) == []
  {
  }

  ghost predicate Rightful(answers: seq<Answer>, bearing: seq<Tx>) {
    |answers| <= |bearing| && forall k :: 0 <= k < |answers| ==> answers[k] == Answer(bearing[k], Response(bearing[k]))
  }

  /** The requests whose responses the thread has not read: those it waits for, and one more if that has been sent and
      its write is not complete. */
  ghost function Expected(readQueue: seq<Tx>, writeQueue: seq<Tx>, delivered: bool): seq<Tx> {
    readQueue + if delivered then Bearing(writeQueue[..if writeQueue == [] then 0 else 1]) else []
  }

  lemma SameFirst(x: Tx, s: seq<Tx>, y: Tx, t: seq<Tx>)
    requires [x] + s == [y] + t
    ensures x == y && s == t
  {
    assert ([x] + s)[0] == x && ([x] + s)[1..] == s && ([y] + t)[0] == y && ([y] + t)[1..] == t;
  }

  lemma BearingGrows(answers: seq<Answer>, bearing: seq<Tx>, more: seq<Tx>)
    requires Rightful(answers, bearing)
    ensures Rightful(answers, bearing + more) && (bearing + more)[|answers|..] == bearing[|answers|..] + more
  {
  }

  /** Everything submitted is written or waits to be, everything that bears a response has it or waits for it, and
      `owed`, those that the process will answer, in order, are those that wait. */
  ghost predicate Queues(readQueue: seq<Tx>, writeQueue: seq<Tx>, delivered: bool, owed: seq<Tx>, submitted: seq<Tx>,
                         written: seq<Tx>, answers: seq<Answer>) {
    && owed == Expected(readQueue, writeQueue, delivered) && (delivered ==> writeQueue != [])
    && submitted == written + writeQueue && Unique(readQueue + writeQueue)
    && Rightful(answers, Bearing(written)) && Bearing(written)[|answers|..] == readQueue
  }

  lemma Submits(readQueue: seq<Tx>, writeQueue: seq<Tx>, delivered: bool, owed: seq<Tx>, submitted: seq<Tx>,
                written: seq<Tx>, answers: seq<Answer>, t: Tx)
    requires Queues(readQueue, writeQueue, delivered, owed, submitted, written, answers)
        && t !in readQueue && t !in writeQueue
    ensures Queues(readQueue, writeQueue + [t], delivered, owed, submitted + [t], written, answers)
  {
    hide Bearing, Rightful;
    assert (written + writeQueue) + [t] == written + (writeQueue + [t]);
    assert (readQueue + writeQueue) + [t] == readQueue + (writeQueue + [t]);
    UniqueSnoc(readQueue + writeQueue, t);
    if delivered { assert (writeQueue + [t])[..1] == writeQueue[..1]; }
  }

  lemma Delivers(readQueue: seq<Tx>, writeQueue: seq<Tx>, owed: seq<Tx>, submitted: seq<Tx>, written: seq<Tx>,
                 answers: seq<Answer>)
    requires Queues(readQueue, writeQueue, false, owed, submitted, written, answers) && writeQueue != []
    ensures Queues(readQueue, writeQueue, true, owed + Bearing([writeQueue[0]]), submitted, written, answers)
  {
    hide Bearing, Rightful, Unique;
    assert writeQueue[..1] == [writeQueue[0]] && readQueue + [] == readQueue;
  }

  lemma Writes(readQueue: seq<Tx>, writeQueue: seq<Tx>, owed: seq<Tx>, submitted: seq<Tx>, written: seq<Tx>,
               answers: seq<Answer>)
    requires Queues(readQueue, writeQueue, true, owed, submitted, written, answers)
    ensures writeQueue != []
    ensures Queues(readQueue + (if writeQueue[0].responseless then [] else [writeQueue[0]]), writeQueue[1..], false,
                   owed, submitted, written + [writeQueue[0]], answers)
  {
    hide Bearing, Rightful, Unique;
    var t := writeQueue[0];
    MoveFirst(readQueue, writeQueue);
    BearingAppend(written, [t]);
    BearingOne(t);
    BearingGrows(answers, Bearing(written), Bearing([t]));
    assert writeQueue == [t] + writeQueue[1..] && writeQueue[..1] == [t] && readQueue + [] == readQueue;
    assert written + ([t] + writeQueue[1..]) == (written + [t]) + writeQueue[1..];
    assert owed + [] == owed;
  }

  /** A response is read by the transaction that waits first, and it is its own. */
  lemma Reads(readQueue: seq<Tx>, writeQueue: seq<Tx>, delivered: bool, first: Tx, later: seq<Tx>, submitted: seq<Tx>,
              written: seq<Tx>, answers: seq<Answer>)
    requires Queues(readQueue, writeQueue, delivered, [first] + later, submitted, written, answers) && readQueue != []
    ensures first == readQueue[0]
    ensures Queues(readQueue[1..], writeQueue, delivered, later, submitted, written,
                   answers + [Answer(first, Response(first))])
  {
    hide Bearing, Unique;
    var x := if delivered then Bearing(writeQueue[..1]) else [];
    assert readQueue + x == [readQueue[0]] + (readQueue[1..] + x);
    SameFirst(first, later, readQueue[0], readQueue[1..] + x);
    UniqueTail(readQueue, writeQueue);
    var n := |answers|;
    assert Bearing(written)[n..][0] == Bearing(written)[n];
    assert Bearing(written)[n + 1..] == Bearing(written)[n..][1..];
  }

  lemma QueuesStart()
    ensures Queues([], [], false, Owing([], [], []), [], [], [])
  {
  }

  lemma QueuesMean(readQueue: seq<Tx>, writeQueue: seq<Tx>, delivered: bool, owed: seq<Tx>, submitted: seq<Tx>,
                   written: seq<Tx>, answers: seq<Answer>)
    requires Queues(readQueue, writeQueue, delivered, owed, submitted, written, answers)
    ensures submitted == written + writeQueue && Rightful(answers, Bearing(written))
        && Bearing(written)[|answers|..] == readQueue && |readQueue| <= |owed| && owed[..|readQueue|] == readQueue
  {
    hide Bearing, Unique;
  }

  class AsyncNb {
    const peer: Daemon
    var writeQueue: seq<Tx>
    var readQueue: seq<Tx>
    var writing: bool              // the request of the first of `writeQueue` is being written
    var delivered: bool            // it has reached the process, and the thread has yet to hear that it was written
    var reading: bool
    ghost var submitted: seq<Tx>
    ghost var written: seq<Tx>     // in the order the requests went out
    ghost var answers: seq<Answer> // in the order the responses were read

    constructor ()
      ensures Valid() && Now() == START && fresh(peer)
    {
      hide Queues, Owing;
      QueuesStart();
      peer := new Daemon();
      writeQueue, readQueue, writing, delivered, reading := [], [], false, false, false;
      submitted, written, answers := [], [], [];
    }

    ghost function Now(): Moment
      reads this, peer
    {
      Moment(writeQueue, readQueue, writing, delivered, reading, peer.requests, peer.chain, peer.responses, submitted,
             written, answers)
    }

    /** What holds even inside callbacks. */
    ghost predicate Core()
      reads this, peer
    {
      && peer.Valid() && Queues(readQueue, writeQueue, delivered, peer.Owed(), submitted, written, answers)
      && |readQueue| <= MAX_IN_FLIGHT && (writing ==> writeQueue != [] && |readQueue| < MAX_IN_FLIGHT)
      && (delivered ==> writing) && (readQueue != [] ==> reading)
    }

    /** Requests wait only for a write to complete or for room to wait for a response, and responses are waited for
        exactly while one is owed. */
    ghost predicate Valid()
      reads this, peer
    {
      Core() && (writeQueue != [] ==> writing || |readQueue| == MAX_IN_FLIGHT) && (reading <==> readQueue != [])
    }

    /** async_nb_submit_write_pending. */
    method SubmitWritePending()
      requires Core()
      modifies this`writing
      ensures Core() && writing == (old(writing) || (writeQueue != [] && |readQueue| < MAX_IN_FLIGHT))
    {
      if |readQueue| >= MAX_IN_FLIGHT {
        return;
      }
      if !writing && |writeQueue| != 0 {
        writing := true;
      }
    }

    /** A new transaction, from a handshake or from within the completion of another; it is on no queue. */
    method Submit(t: Tx)
      requires Core() && t !in writeQueue && t !in readQueue
      modifies this`writeQueue, this`writing, this`submitted
      ensures Core() && Now() == Submitting(old(Now()), t)
    {
      hide Queues, Owing;
      Submits(readQueue, writeQueue, delivered, peer.Owed(), submitted, written, answers, t);
      writeQueue := writeQueue + [t];
      submitted := submitted + [t];
      SubmitWritePending();
    }

    /** A step outside the thread, if it is possible. */
    method Elsewhere(w: Work) returns (taken: bool)
      requires Core()
      modifies this`delivered, peer
      ensures Core() && taken == old(Possible(Now(), Other(w))) && Follows(old(Now()), Other(w), Now())
    {
      hide Queues, Owing;
      match w
      case Deliver =>
        taken := writing && !delivered;
        if taken {
          Delivers(readQueue, writeQueue, peer.Owed(), submitted, written, answers);
          OwingMore(peer.responses, peer.chain, peer.requests, writeQueue[0]);
          peer.requests := peer.requests + [writeQueue[0]];
          delivered := true;
        }
      case Serve(offload) =>
        taken := peer.requests != [];
        if taken {
          peer.Take(offload);
        }
      case Done(i) =>
        taken := i < |peer.chain|;
        if taken {
          peer.Finish(i);
        }
    }

    /** async_nb_on_write_complete: the transaction now waits for its response, if it has one, and the next
        request goes out. */
    method OnWriteComplete()
      requires Valid() && delivered
      modifies this
      ensures Valid() && old(writeQueue) != [] && Now() == Completing(old(Now()))
    {
      hide Queues, Owing;
      var t := writeQueue[0];
      Writes(readQueue, writeQueue, peer.Owed(), submitted, written, answers);
      assert readQueue + [] == readQueue;
      writeQueue := writeQueue[1..];
      writing, delivered := false, false;
      written := written + [t];
      if !t.responseless {
        readQueue := readQueue + [t];
        if !reading {
          reading := true;
        }
      }
      SubmitWritePending();
    }

    /** The completion of a transaction, which may submit others. */
    method OnReadComplete(reaction: seq<Tx>)
      requires Core() && Unique(readQueue + writeQueue + reaction)
      modifies this`writeQueue, this`writing, this`submitted
      ensures Core() && submitted == old(submitted) + reaction && writeQueue == old(writeQueue) + reaction
    {
      hide Unique, Queues, Owing;
      var i := 0;
      assert readQueue + writeQueue + reaction[0..] == readQueue + writeQueue + reaction;
      while i < |reaction|
        invariant 0 <= i <= |reaction| && Core() && Unique(readQueue + writeQueue + reaction[i..])
        invariant submitted == old(submitted) + reaction[..i] && writeQueue == old(writeQueue) + reaction[..i]
      {
        var t := reaction[i];
        UniqueNext(readQueue, writeQueue, reaction[i..]);
        assert reaction[..i + 1] == reaction[..i] + [t] && reaction[i..][1..] == reaction[i + 1..];
        Submit(t);
        i := i + 1;
      }
    }

    /** async_nb_pop and neverbleed_transaction_read: the transaction that waits first reads a response; one is there,
        and it is its own. */
    method ReadOne() returns (t: Tx, r: Response)
      requires Core() && readQueue != [] && peer.responses != []
      modifies this`readQueue, this`answers, peer`responses
      ensures Core() && t == old(readQueue)[0] && r == old(peer.responses)[0] && r == Response(t)
      ensures readQueue == old(readQueue)[1..] && answers == old(answers) + [Answer(t, r)]
    {
      hide Queues, Owing;
      t, r := readQueue[0], peer.responses[0];
      OwingFirst(peer.responses, peer.chain, peer.requests);
      Reads(readQueue, writeQueue, delivered, r.of, Owing(peer.responses[1..], peer.chain, peer.requests), submitted,
            written, answers);
      readQueue := readQueue[1..];
      peer.responses := peer.responses[1..];
      answers := answers + [Answer(t, r)];
    }

    /** Steps outside the thread. */
    method Meanwhile(work: seq<Work>)
      requires Core()
      modifies this`delivered, peer
      ensures Core() && (old(delivered) ==> delivered)
    {
      hide Queues, Owing;
      for i := 0 to |work|
        invariant Core() && (old(delivered) ==> delivered)
      {
        var taken := Elsewhere(work[i]);
      }
    }

    /** One turn of async_nb_read_ready; `more` if there is another. */
    method ReadTurn(work: seq<Work>, reaction: seq<Tx>) returns (more: bool)
      requires Core() && readQueue != [] && peer.responses != []
      requires Unique(readQueue[1..] + writeQueue + reaction)
      modifies this`readQueue, this`answers, this`writeQueue, this`writing, this`submitted, this`delivered, peer
      ensures Core() && readQueue == old(readQueue)[1..] && (old(delivered) ==> delivered)
      ensures answers == old(answers) + [Answer(old(readQueue)[0], Response(old(readQueue)[0]))]
      ensures submitted == old(submitted) + reaction && writeQueue == old(writeQueue) + reaction
      ensures more <==> readQueue != [] && peer.responses != []
    {
      hide Unique, Queues, Owing;
      var t, r := ReadOne();
      OnReadComplete(reaction);
      if |readQueue| == 0 {
        return false;
      }
      Meanwhile(work);
      more := |peer.responses| != 0;
    }

    /** async_nb_read_ready: reads responses while there are any. `work` is what happens elsewhere before each poll,
        `reactions` what each completion submits. */
    method OnReadReady(work: seq<seq<Work>>, reactions: seq<seq<Tx>>) returns (n: nat)
      requires Valid() && reading && peer.responses != [] && |work| == |reactions| == |readQueue|
      requires Unique(readQueue + writeQueue + Concat(reactions))
      modifies this, peer
      ensures Valid() && Reading(old(Now()), reactions, n, Now())
    {
      hide Unique, Queues, Concat, Owing, Partly;
      n := 0;
      ghost var s := Now();
      PartlyStart(s, reactions);
      while |readQueue| > 0
        invariant Core() && reading && n <= |reactions| && Partly(s, reactions, n, Now())
        invariant (n == 0 ==> readQueue != []) && (readQueue != [] ==> peer.responses != [])
        decreases |readQueue|
      {
        ghost var t := Now();
        PartlyTurn(s, reactions, n, t);
        var more := ReadTurn(work[n], reactions[n]);
        PartlyNext(s, reactions, n, t, Now());
        n := n + 1;
        if !more {
          break;
        }
      }
      PartlyAll(s, reactions, n, Now());
      if |readQueue| < MAX_IN_FLIGHT {
        SubmitWritePending();
      }
      if |readQueue| == 0 {
        reading := false;
      }
    }

    // ---- Events -------------------------------------------------------------------------------------------

    /** One event, if it is possible. */
    method Step(e: Event) returns (taken: bool)
      requires Valid()
      modifies this, peer
      ensures Valid() && taken == old(Possible(Now(), e)) && Follows(old(Now()), e, Now())
    {
      hide Unique, Queues, Concat, Owing, Own, Completing, Going, Reading;
      taken := match e
               case Request(t) => t !in writeQueue && t !in readQueue
               case Other(w) => false
               case Written => delivered
               case Readable(work, reactions) =>
                 && reading && peer.responses != [] && |work| == |reactions| == |readQueue|
                 && Unique(readQueue + writeQueue + Concat(reactions));
      match e
      case Request(t) => if taken { Submit(t); }
      case Other(w) => taken := Elsewhere(w);
      case Written => if taken { OnWriteComplete(); }
      case Readable(work, reactions) => if taken { var n := OnReadReady(work, reactions); }
    }
  }

  /** A thread and the process from their start, through any events in any order: the k-th response read is the one to
      the k-th request written that bears a response, and it is given to that transaction; at most 200 wait; what waits
      to be written has a write under way or no room; what waits for a response is read for. */
  method Serve(events: seq<Event>) returns (nb: AsyncNb, ghost states: seq<Moment>)
    ensures IsRun(states, events) && nb.Now() == states[|events|]
    ensures nb.Valid() && nb.submitted == nb.written + nb.writeQueue
    ensures forall k :: 0 <= k < |nb.answers| ==>
        k < |Bearing(nb.written)| && nb.answers[k] == Answer(Bearing(nb.written)[k], Response(Bearing(nb.written)[k]))
    ensures Bearing(nb.written)[|nb.answers|..] == nb.readQueue && |nb.readQueue| <= MAX_IN_FLIGHT
    ensures nb.writeQueue != [] ==> nb.writing || |nb.readQueue| == MAX_IN_FLIGHT
    ensures nb.readQueue != [] ==> nb.reading && nb.peer.Owed()[..|nb.readQueue|] == nb.readQueue
  {
    hide Queues, Owing, Follows;
    nb := new AsyncNb();
    states := [START];
    for i := 0 to |events|
      invariant nb.Valid() && fresh(nb) && fresh(nb.peer)
      invariant IsRun(states, events[..i]) && nb.Now() == states[i]
    {
      var taken := nb.Step(events[i]);
      assert events[..i + 1] == events[..i] + [events[i]];
      states := states + [nb.Now()];
    }
    assert events[..|events|] == events;
    QueuesMean(nb.readQueue, nb.writeQueue, nb.delivered, nb.peer.Owed(), nb.submitted, nb.written, nb.answers);
  }
}

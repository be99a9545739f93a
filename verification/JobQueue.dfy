/**
 The job queue of queue/queue.go and queue/worker.go as a system of atomic steps: any number
 of producers append sequenced jobs to buckets and bounded channels, any number of worker
 connections take and acknowledge them.
 */
module JobQueue {
  import opened GoStrings
  import opened JobFraming

  /** make(chan Msg, 500) */
  const CHANNEL_CAPACITY: nat := 500

  /** A committed bolt bucket: its sequence number and its records. */
  datatype Bucket = Bucket(seqno: nat, jobs: map<nat, string>)

  /** The db.Update that is running: bolt allows one at a time. */
  datatype Txn = Txn(bucket: string, id: nat, body: string, sent: bool)

  /**
   Where a connection's goroutine is: reading a line, waiting in the select, stuck in a
   select on channels that do not exist, about to look up a taken message, about to write
   what it found, blocked for ever at handing a message back, or finished.
   */
  datatype Phase = Reading | Selecting | Stuck | Handling | Writing | GivingBack | Closed

  /**
   The local variables of handle, with `view` for the bytes v showed when View ended, and the
   bytes written to the connection. The last four fields are history: jobs taken and
   acknowledged, jobs delivered, and how many transactions had committed when View ended.
   */
  datatype Session = Session(phase: Phase, state: int, channel: string, curmsg: Option<nat>, view: string,
                             out: string, takes: nat, oks: nat, delivered: seq<Job>, viewedAt: nat)

  /**
   The process. The last four fields are history that the program does not keep: per
   bucket, the bodies sent so far in order, the ids taken so far in order, and the ids
   acknowledged so far; and how many transactions have committed.
   */
  datatype World = World(store: map<string, Bucket>, txn: Option<Txn>, channels: map<string, seq<nat>>,
                         sessions: map<nat, Session>, crashed: bool,
                         sent: map<string, seq<string>>, taken: map<string, seq<nat>>, acked: map<string, seq<nat>>,
                         commits: nat)

  /** A lookup in a map of lists, a missing entry being empty. */
  function At<T>(m: map<string, seq<T>>, b: string): seq<T> {
    if b in m then m[b] else []
  }

  function SeqNo(store: map<string, Bucket>, b: string): nat {
    if b in store then store[b].seqno else 0
  }

  const INITIAL := World(map[], None, map[], map[], false, map[], map[], map[], 0)

  // ------------------------------------------------------------- the session machine

  const GREETING := "HELLO hfast.v1\r\n"

  function NewSession(): Session {
    Session(Reading, 0, "", None, "", GREETING, 0, 0, [], 0)
  }

  /** Leaving the loop: in state 2 the message goes to a channel nobody ever made. */
  function Leave(s: Session): Session {
    s.(phase := if s.state == 2 then GivingBack else Closed)
  }

  /** conn.Write: a failed write leaves the loop. */
  function Reply(s: Session, text: string, writes: bool): Session {
    if writes then s.(out := s.out + text) else Leave(s)
  }

  /** One line from the worker; None where tok[1] is out of range and the process panics. */
  function OnLine(s: Session, line: string, writes: bool, channelMade: bool): Option<Session> {
    var tok := SplitN(TrimSpace(line), ' ', 2);
    if s.state == 0 then
      if tok[0] == "CHAN" then
        if |tok| < 2 then None
        else
          var t := Reply(s.(channel := tok[1]), "READY\r\n", writes);
          Some(if writes then t.(state := 1) else t)
      else Some(Leave(Reply(s, "INVALID\r\n", writes)))
    else if s.state == 1 then
      if tok[0] == "READY" then Some(s.(phase := if channelMade then Selecting else Stuck))
      else Some(Leave(Reply(s, "INVALID\r\n", writes)))
    else if tok[0] == "PONG" then Some(if writes then s else Leave(s))
    else if tok[0] == "OK" then Some(s.(curmsg := None, state := 1, oks := s.oks + 1))
    else Some(Leave(Reply(s, "INVALID\r\n", writes)))
  }

  function OnTake(s: Session, id: nat): Session {
    s.(phase := Handling, curmsg := Some(id), state := 2, takes := s.takes + 1)
  }

  /** View has returned without an error: v refers to the record's bytes. */
  function OnLookup(s: Session, body: string, commits: nat): Session {
    s.(phase := Writing, view := body, viewedAt := commits)
  }

  /** What can go wrong between the lookup and waiting for the acknowledgement. */
  datatype Fault = NoFault | HeaderFails | BodyFails | DeadlineFails

  function OnBody(s: Session, id: nat, body: string, fault: Fault): Session {
    var job := Job(id, body);
    match fault
    case HeaderFails => Leave(s)
    case BodyFails => Leave(s.(out := s.out + Header(id, |body|)))
    case DeadlineFails => Leave(s.(out := s.out + Frame(job), delivered := s.delivered + [job]))
    case NoFault => s.(phase := Reading, out := s.out + Frame(job), delivered := s.delivered + [job])
  }

  // ---------------------------------------------------------------- the whole system

  datatype Event =
    | Begin(bucket: string, body: string)      // a producer's transaction: sequence, put, channel
    | Send                                     // ... its send, once there is room
    | Commit                                   // ... its successful commit
    | Connect(w: nat)
    | Line(w: nat, line: string, writes: bool)
    | Hangup(w: nat)                           // ReadString fails
    | Take(w: nat)                             // the select receives
    | View(w: nat, ok: bool)                   // the lookup
    | Write(w: nat, slice: Option<string>, fault: Fault) // JOB frame from what v shows now, deadline

  predicate InPhase(s: World, w: nat, phase: Phase) {
    w in s.sessions && s.sessions[w].phase == phase
  }

  predicate Enabled(s: World, e: Event) {
    && !s.crashed
    && match e
       case Begin(_, _) => s.txn.None?
       case Send => s.txn.Some? && !s.txn.value.sent && |At(s.channels, s.txn.value.bucket)| < CHANNEL_CAPACITY
       case Commit => s.txn.Some? && s.txn.value.sent
       case Connect(w) => w !in s.sessions
       case Line(w, _, _) => InPhase(s, w, Reading)
       case Hangup(w) => InPhase(s, w, Reading)
       case Take(w) => InPhase(s, w, Selecting) && At(s.channels, s.sessions[w].channel) != []
       case View(w, _) => InPhase(s, w, Handling) && s.sessions[w].curmsg.Some?
       case Write(w, slice, _) =>
         InPhase(s, w, Writing) && s.sessions[w].curmsg.Some? && Shows(s, s.sessions[w], slice)
  }

  /** No transaction has committed since the lookup, and none is about to. */
  predicate Steady(s: World, x: Session) {
    s.commits == x.viewedAt && !(s.txn.Some? && s.txn.value.sent)
  }

  /**
   What v may show. bolt promises its bytes during the transaction of the lookup only: later
   commits may reuse the page, so that other bytes show, or unmap it (None). An empty slice
   refers to no page.
   */
  predicate Shows(s: World, x: Session, slice: Option<string>) {
    && (Steady(s, x) || x.view == "" ==> slice == Some(x.view))
    && (slice.Some? ==> |slice.value| == |x.view|)
  }

  predicate SameQueues(s: World, t: World) {
    && t.store == s.store && t.txn == s.txn && t.channels == s.channels
    && t.sent == s.sent && t.taken == s.taken && t.commits == s.commits
  }

  function Put(s: World, w: nat, x: Session): (t: World)
    ensures SameQueues(s, t) && t.sessions == s.sessions[w := x]
  {
    s.(sessions := s.sessions[w := x])
  }

  /** bjob.Get in the committed store: a missing record reads as no bytes. */
  function StoredBody(store: map<string, Bucket>, b: string, id: nat): string {
    if b in store && id in store[b].jobs then store[b].jobs[id] else ""
  }

  /** The start of db.Update in Handle: the next sequence number, the put, the channel. */
  function OnBegin(s: World, b: string, body: string): (t: World)
    ensures t.sessions == s.sessions
  {
    s.(txn := Some(Txn(b, SeqNo(s.store, b) + 1, body, false)),
       channels := if b in s.channels then s.channels else s.channels[b := []])
  }

  function OnSend(s: World): (t: World)
    requires s.txn.Some?
    ensures t.sessions == s.sessions
  {
    var t := s.txn.value;
    s.(txn := Some(t.(sent := true)),
       channels := s.channels[t.bucket := At(s.channels, t.bucket) + [t.id]],
       sent := s.sent[t.bucket := At(s.sent, t.bucket) + [t.body]])
  }

  function OnCommit(s: World): (t: World)
    requires s.txn.Some?
    ensures t.sessions == s.sessions
  {
    var t := s.txn.value;
    var jobs := if t.bucket in s.store then s.store[t.bucket].jobs else map[];
    s.(txn := None, store := s.store[t.bucket := Bucket(t.id, jobs[t.id := t.body])], commits := s.commits + 1)
  }

  function OnReceive(s: World, w: nat): (t: World)
    requires Enabled(s, Take(w))
    ensures t.sessions == s.sessions[w := OnTake(s.sessions[w], At(s.channels, s.sessions[w].channel)[0])]
  {
    var x := s.sessions[w];
    var q := At(s.channels, x.channel);
    Put(s, w, OnTake(x, q[0])).(channels := s.channels[x.channel := q[1..]],
                                taken := s.taken[x.channel := At(s.taken, x.channel) + [q[0]]])
  }

  function OnWorkerLine(s: World, w: nat, line: string, writes: bool): (t: World)
    requires w in s.sessions
    ensures SameQueues(s, t)
    ensures var next := OnLine(s.sessions[w], line, writes, s.sessions[w].channel in s.channels);
            t.sessions == if next.None? then s.sessions else s.sessions[w := next.value]
  {
    var x := s.sessions[w];
    var next := OnLine(x, line, writes, x.channel in s.channels);
    if next.None? then s.(crashed := true)
    else if next.value.oks > x.oks && x.curmsg.Some? then
      Put(s, w, next.value).(acked := s.acked[x.channel := At(s.acked, x.channel) + [x.curmsg.value]])
    else Put(s, w, next.value)
  }

  /** db.View; a bucket that was never committed is a nil pointer. */
  function OnView(s: World, w: nat, ok: bool): (t: World)
    requires w in s.sessions && s.sessions[w].curmsg.Some?
    ensures SameQueues(s, t) && t.acked == s.acked
    ensures var (x, id) := (s.sessions[w], s.sessions[w].curmsg.value);
            t.sessions == if !ok then s.sessions[w := Leave(x)]
                          else if x.channel !in s.store then s.sessions
                          else s.sessions[w := OnLookup(x, StoredBody(s.store, x.channel, id), s.commits)]
  {
    var x := s.sessions[w];
    if !ok then Put(s, w, Leave(x))
    else if x.channel !in s.store then s.(crashed := true)
    else Put(s, w, OnLookup(x, StoredBody(s.store, x.channel, x.curmsg.value), s.commits))
  }

  /** The frame and the deadline; reading an unmapped page ends the process. */
  function OnWrite(s: World, w: nat, slice: Option<string>, fault: Fault): (t: World)
    requires w in s.sessions && s.sessions[w].curmsg.Some?
    ensures SameQueues(s, t) && t.acked == s.acked
    ensures var (x, id) := (s.sessions[w], s.sessions[w].curmsg.value);
            t.sessions == if fault == HeaderFails then s.sessions[w := Leave(x)]
                          else if slice.None? then s.sessions
                          else s.sessions[w := OnBody(x, id, slice.value, fault)]
  {
    var x := s.sessions[w];
    if fault == HeaderFails then Put(s, w, Leave(x))
    else if slice.None? then s.(crashed := true)
    else Put(s, w, OnBody(x, x.curmsg.value, slice.value, fault))
  }

  /** One atomic step; an event that is not enabled leaves the system as it is. */
  function Step(s: World, e: Event): World {
    if !Enabled(s, e) then s
    else
      match e
      case Begin(b, body) => OnBegin(s, b, body)
      case Send => OnSend(s)
      case Commit => OnCommit(s)
      case Connect(w) => Put(s, w, NewSession())
      case Line(w, line, writes) => OnWorkerLine(s, w, line, writes)
      case Hangup(w) => Put(s, w, Leave(s.sessions[w]))
      case Take(w) => OnReceive(s, w)
      case View(w, ok) => OnView(s, w, ok)
      case Write(w, slice, fault) => OnWrite(s, w, slice, fault)
  }

  function Run(events: seq<Event>): World {
    if events == [] then INITIAL else Step(Run(events[..|events| - 1]), events[|events| - 1])
  }

  // --------------------------------------------------------------------- invariants

  /** 1, 2, ..., n */
  function UpTo(n: nat): (s: seq<nat>)
    ensures |s| == n && forall i :: 0 <= i < n ==> s[i] == i + 1
  {
    seq(n, i => i + 1)
  }

  /** The protocol state of one connection, and the account of its jobs. */
  predicate SessionOk(x: Session) {
    && 0 <= x.state <= 2
    && (x.state == 2 <==> x.curmsg.Some?)
    && x.takes == x.oks + (if x.state == 2 then 1 else 0)
    && (x.phase.Handling? || x.phase.Writing? || x.phase.GivingBack? ==> x.state == 2)
    && (x.phase.Selecting? || x.phase.Stuck? ==> x.state == 1)
    && (x.phase.Closed? ==> x.state != 2)
  }

  ghost predicate SessionsOk(s: World) {
    forall w :: w in s.sessions ==> SessionOk(s.sessions[w])
  }

  /** The running transaction's bucket and whether its message is out already. */
  predicate SentBy(txn: Option<Txn>, b: string) {
    txn.Some? && txn.value.bucket == b && txn.value.sent
  }

  /** One bucket: the ids sent are 1, 2, ... and each is either taken already or still queued. */
  predicate BucketOk(s: World, b: string) {
    && At(s.taken, b) + At(s.channels, b) == UpTo(|At(s.sent, b)|)
    && |At(s.channels, b)| <= CHANNEL_CAPACITY
    && |At(s.sent, b)| == SeqNo(s.store, b) + (if SentBy(s.txn, b) then 1 else 0)
    && (forall id :: 1 <= id <= SeqNo(s.store, b) ==>
         b in s.store && id in s.store[b].jobs && s.store[b].jobs[id] == At(s.sent, b)[id - 1])
    && (b in s.store ==> 1 <= s.store[b].seqno && forall id :: id in s.store[b].jobs ==> 1 <= id <= s.store[b].seqno)
  }

  predicate TxnOk(s: World) {
    s.txn.Some? ==>
      var t := s.txn.value;
      && t.id == SeqNo(s.store, t.bucket) + 1
      && (t.sent ==> var all := At(s.sent, t.bucket); all != [] && all[|all| - 1] == t.body)
      && t.bucket in s.channels
  }

  ghost predicate QueuesOk(s: World) {
    (forall b :: BucketOk(s, b)) && TxnOk(s)
  }

  /** Connection `w` has taken job `id` of bucket `b` and not acknowledged it. */
  predicate Holds(s: World, w: nat, b: string, id: nat) {
    w in s.sessions && s.sessions[w].channel == b && s.sessions[w].curmsg == Some(id)
  }

  /** Taken jobs are acknowledged or held, never both, and held by one connection only. */
  ghost predicate HandsOk(s: World) {
    && (forall w, b, id :: Holds(s, w, b, id) ==> id in At(s.taken, b) && id !in At(s.acked, b))
    && (forall w, v, b, id :: Holds(s, w, b, id) && Holds(s, v, b, id) ==> w == v)
    && (forall b, id :: id in At(s.taken, b) && id !in At(s.acked, b) ==> exists w :: Holds(s, w, b, id))
    && (forall b, id :: id in At(s.acked, b) ==> id in At(s.taken, b))
  }

  ghost predicate Inv(s: World) {
    SessionsOk(s) && QueuesOk(s) && HandsOk(s)
  }

  // ------------------------------------------------- every step keeps the invariants

  /** What a line can do to a connection: keep its message, or acknowledge it. */
  lemma LineKeeps(x: Session, line: string, writes: bool, channelMade: bool)
    requires SessionOk(x) && x.phase.Reading?
    ensures var y := OnLine(x, line, writes, channelMade);
      y.Some? ==>
        && SessionOk(y.value)
        && y.value.takes == x.takes
        && (y.value.oks == x.oks ==> y.value.curmsg == x.curmsg)
        && (y.value.oks == x.oks || (y.value.oks == x.oks + 1 && x.curmsg.Some? && y.value.curmsg.None?))
        && (x.state != 0 ==> y.value.channel == x.channel && y.value.state != 0)
        && y.value.delivered == x.delivered && !y.value.phase.Handling? && !y.value.phase.Writing?
  {
    hide SplitN, TrimSpace;
  }

  lemma BodyKeeps(x: Session, id: nat, body: string, fault: Fault)
    requires SessionOk(x) && x.phase.Writing?
    ensures var y := OnBody(x, id, body, fault);
      SessionOk(y) && y.curmsg == x.curmsg && y.channel == x.channel && y.oks == x.oks
  {
  }

  /** How one step may change one connection. */
  datatype Move =
    | Stay
    | ByLine(line: string, writes: bool, channelMade: bool)
    | ByLeave
    | ByTake(id: nat)
    | ByView(body: string, commits: nat)
    | ByBody(id: nat, body: string, fault: Fault)

  predicate Allowed(x: Session, m: Move) {
    match m
    case Stay => true
    case ByLine(line, writes, made) => x.phase.Reading? && OnLine(x, line, writes, made).Some?
    case ByLeave => x.phase.Reading? || x.phase.Handling? || x.phase.Writing?
    case ByTake(_) => x.phase.Selecting?
    case ByView(_, _) => x.phase.Handling?
    case ByBody(id, _, _) => x.phase.Writing? && x.curmsg == Some(id)
  }

  function Moved(x: Session, m: Move): Session
    requires Allowed(x, m)
  {
    match m
    case Stay => x
    case ByLine(line, writes, made) => OnLine(x, line, writes, made).value
    case ByLeave => Leave(x)
    case ByTake(id) => OnTake(x, id)
    case ByView(body, commits) => OnLookup(x, body, commits)
    case ByBody(id, body, fault) => OnBody(x, id, body, fault)
  }

  lemma MoveOf(s: World, e: Event, w: nat) returns (m: Move)
    requires w in s.sessions
    ensures w in Step(s, e).sessions
    ensures Allowed(s.sessions[w], m) && Step(s, e).sessions[w] == Moved(s.sessions[w], m)
    ensures var x := s.sessions[w];
      && (m.ByTake? ==> e == Take(w) && Enabled(s, e) && m.id == At(s.channels, x.channel)[0])
      && (m.ByView? ==> x.curmsg.Some? && m == ByView(StoredBody(s.store, x.channel, x.curmsg.value), s.commits))
      && (m.ByBody? ==> e.Write? && e.w == w && e.slice == Some(m.body) && Enabled(s, e))
  {
    hide OnBegin, OnSend, OnCommit, OnReceive, OnWorkerLine, OnView, OnWrite, Put;
    hide OnLine, OnLookup, OnBody, StoredBody, NewSession, Leave, SameQueues, OnTake, Shows;
    m := Stay;
    if Enabled(s, e) {
      var x := s.sessions[w];
      match e {
        case Line(v, line, writes) =>
          var made := x.channel in s.channels;
          if v == w && OnLine(x, line, writes, made).Some? { m := ByLine(line, writes, made); }
        case Hangup(v) =>
          if v == w { m := ByLeave; }
        case Take(v) =>
          if v == w { m := ByTake(At(s.channels, x.channel)[0]); }
        case View(v, ok) =>
          if v == w && !ok { m := ByLeave; }
          if v == w && ok && x.channel in s.store {
            m := ByView(StoredBody(s.store, x.channel, x.curmsg.value), s.commits);
          }
        case Write(v, slice, fault) =>
          if v == w && fault == HeaderFails { m := ByLeave; }
          if v == w && fault != HeaderFails && slice.Some? { m := ByBody(x.curmsg.value, slice.value, fault); }
        case _ =>
      }
    }
  }

  /** A connection that was not there before is a new one. */
  lemma Arrival(s: World, e: Event, w: nat)
    requires w !in s.sessions && w in Step(s, e).sessions
    ensures Step(s, e).sessions[w] == NewSession()
  {
    hide OnBegin, OnSend, OnCommit, OnReceive, OnWorkerLine, OnView, OnWrite, Put;
    hide OnLine, OnLookup, OnBody, StoredBody, NewSession, Leave, SameQueues, OnTake, Shows;
  }

  lemma MoveKeeps(x: Session, m: Move)
    requires SessionOk(x) && Allowed(x, m)
    ensures SessionOk(Moved(x, m))
  {
    hide OnLine, OnBody;
    match m {
      case ByLine(line, writes, made) => LineKeeps(x, line, writes, made);
      case ByBody(id, body, fault) => BodyKeeps(x, id, body, fault);
      case _ =>
    }
  }

  lemma SessionsKept(s: World, e: Event)
    requires SessionsOk(s)
    ensures SessionsOk(Step(s, e))
  {
    hide Step, SessionOk, Moved, Allowed, NewSession;
    forall w | w in Step(s, e).sessions
      ensures SessionOk(Step(s, e).sessions[w])
    {
      if w in s.sessions {
        var m := MoveOf(s, e, w);
        MoveKeeps(s.sessions[w], m);
      } else {
        Arrival(s, e, w);
        FreshIsOk();
      }
    }
  }

  lemma FreshIsOk()
    ensures SessionOk(NewSession())
  {
  }

  /** A bucket none of whose parts change stays in order. */
  lemma BucketSame(s: World, t: World, b: string)
    requires BucketOk(s, b)
    requires At(t.taken, b) == At(s.taken, b) && At(t.channels, b) == At(s.channels, b)
    requires At(t.sent, b) == At(s.sent, b)
    requires b in t.store <==> b in s.store
    requires b in s.store ==> t.store[b] == s.store[b]
    requires SentBy(t.txn, b) == SentBy(s.txn, b)
    ensures BucketOk(t, b)
  {
  }

  lemma UpToSnoc(n: nat)
    ensures UpTo(n) + [n + 1] == UpTo(n + 1)
  {
  }

  lemma BeginKeeps(s: World, c: string, body: string)
    requires QueuesOk(s) && Enabled(s, Begin(c, body))
    ensures QueuesOk(OnBegin(s, c, body))
  {
    forall b
      ensures BucketOk(OnBegin(s, c, body), b)
    {
      BucketSame(s, OnBegin(s, c, body), b);
    }
  }

  /** The bucket that is sent to: one more body, one more id in the channel. */
  lemma SendKeepsOwn(s: World)
    requires QueuesOk(s) && Enabled(s, Send)
    ensures BucketOk(OnSend(s), s.txn.value.bucket)
  {
    hide UpTo;
    var t, e := OnSend(s), s.txn.value;
    var b := e.bucket;
    assert BucketOk(s, b);
    UpToSnoc(|At(s.sent, b)|);
    ConcatAssoc(At(s.taken, b), At(s.channels, b), [e.id]);
  }

  lemma SendKeeps(s: World)
    requires QueuesOk(s) && Enabled(s, Send)
    ensures QueuesOk(OnSend(s))
  {
    var t, e := OnSend(s), s.txn.value;
    SendKeepsOwn(s);
    forall b
      ensures BucketOk(t, b)
    {
      if b != e.bucket {
        hide UpTo, BucketOk;
        BucketSame(s, t, b);
      }
    }
  }

  lemma CommitKeeps(s: World)
    requires QueuesOk(s) && Enabled(s, Commit)
    ensures QueuesOk(OnCommit(s))
  {
    forall b
      ensures BucketOk(OnCommit(s), b)
    {
      assert BucketOk(s, b);
      if b != s.txn.value.bucket {
        BucketSame(s, OnCommit(s), b);
      }
    }
  }

  lemma TakeKeeps(s: World, w: nat)
    requires QueuesOk(s) && Enabled(s, Take(w))
    ensures QueuesOk(OnReceive(s, w))
  {
    var t, c := OnReceive(s, w), s.sessions[w].channel;
    forall b
      ensures BucketOk(t, b)
    {
      assert BucketOk(s, b);
      if b == c {
        var q := At(s.channels, b);
        assert q == [q[0]] + q[1..];
        ConcatAssoc(At(s.taken, b), [q[0]], q[1..]);
      } else {
        BucketSame(s, t, b);
      }
    }
  }

  /** Steps of a connection that take nothing leave the queues alone. */
  lemma QueuesSame(s: World, t: World)
    requires QueuesOk(s) && SameQueues(s, t)
    ensures QueuesOk(t)
  {
    forall b
      ensures BucketOk(t, b)
    {
      BucketSame(s, t, b);
    }
  }

  lemma QueuesKept(s: World, e: Event)
    requires QueuesOk(s)
    ensures QueuesOk(Step(s, e))
  {
    hide OnBegin, OnSend, OnCommit, OnReceive, OnWorkerLine, OnView, OnWrite, Put, QueuesOk, Shows, SameQueues;
    hide NewSession, Leave;
    if Enabled(s, e) {
      match e {
        case Begin(b, body) => BeginKeeps(s, b, body);
        case Send => SendKeeps(s);
        case Commit => CommitKeeps(s);
        case Take(w) => TakeKeeps(s, w);
        case _ => QueuesSame(s, Step(s, e));
      }
    }
  }

  lemma HandsSame(s: World, t: World)
    requires HandsOk(s) && t.taken == s.taken && t.acked == s.acked
    requires forall w, b, id :: Holds(t, w, b, id) <==> Holds(s, w, b, id)
    ensures HandsOk(t)
  {
  }

  /** What is next in a channel has not been taken before. */
  lemma HeadIsFresh(s: World, b: string)
    requires BucketOk(s, b) && At(s.channels, b) != []
    ensures At(s.channels, b)[0] !in At(s.taken, b)
  {
    var all := At(s.taken, b) + At(s.channels, b);
    assert all[|At(s.taken, b)|] == At(s.channels, b)[0];
    assert forall i :: 0 <= i < |At(s.taken, b)| ==> all[i] == At(s.taken, b)[i];
  }

  lemma TakeHands(s: World, w: nat)
    requires SessionsOk(s) && QueuesOk(s) && HandsOk(s) && Enabled(s, Take(w))
    ensures HandsOk(OnReceive(s, w))
  {
    var c := s.sessions[w].channel;
    assert BucketOk(s, c) && SessionOk(s.sessions[w]);
    HeadIsFresh(s, c);
    hide HandsOk, BucketOk, SessionOk;
    TakenHands(s, OnReceive(s, w), w, At(s.channels, c)[0]);
  }

  /** Taking a fresh job puts it into one more connection's hands. */
  lemma TakenHands(s: World, t: World, w: nat, id: nat)
    requires HandsOk(s) && w in s.sessions && s.sessions[w].curmsg.None?
    requires t.sessions == s.sessions[w := OnTake(s.sessions[w], id)]
    requires t.acked == s.acked && id !in At(s.taken, s.sessions[w].channel)
    requires var c := s.sessions[w].channel; t.taken == s.taken[c := At(s.taken, c) + [id]]
    ensures HandsOk(t)
  {
    var c := s.sessions[w].channel;
    assert forall v, b, i :: Holds(t, v, b, i) <==> (Holds(s, v, b, i) || (v == w && b == c && i == id));
    assert forall b, i :: i in At(t.taken, b) <==> (i in At(s.taken, b) || (b == c && i == id));
    assert Holds(t, w, c, id);
  }

  /** Replacing a connection by one with the same message moves no job. */
  lemma ReplaceHands(s: World, w: nat, y: Session)
    requires HandsOk(s) && w in s.sessions && y.curmsg == s.sessions[w].curmsg
    requires y.curmsg.Some? ==> y.channel == s.sessions[w].channel
    ensures HandsOk(Put(s, w, y))
  {
    hide At;
    assert forall v, b, id :: Holds(Put(s, w, y), v, b, id) <==> Holds(s, v, b, id);
    HandsSame(s, Put(s, w, y));
  }

  lemma LineHands(s: World, w: nat, line: string, writes: bool)
    requires SessionsOk(s) && HandsOk(s) && Enabled(s, Line(w, line, writes))
    ensures HandsOk(OnWorkerLine(s, w, line, writes))
  {
    hide OnLine, At, SessionOk, HandsOk;
    var x, t := s.sessions[w], OnWorkerLine(s, w, line, writes);
    assert SessionOk(x);
    LineKeeps(x, line, writes, x.channel in s.channels);
    if t.crashed {
      HandsSame(s, t);
    } else if t.sessions[w].oks == x.oks {
      NoChannelNoMessage(x);
      ReplaceHands(s, w, t.sessions[w]);
    } else {
      AckHands(s, t, w);
    }
  }

  lemma NoChannelNoMessage(x: Session)
    requires SessionOk(x)
    ensures x.state == 0 ==> x.curmsg.None?
  {
  }

  /** An acknowledgement moves the held job to the acknowledged ones. */
  lemma AckHands(s: World, t: World, w: nat)
    requires HandsOk(s) && w in s.sessions && s.sessions[w].curmsg.Some?
    requires t.sessions.Keys == s.sessions.Keys && t.sessions[w].curmsg == None
    requires forall v :: v in s.sessions && v != w ==> t.sessions[v] == s.sessions[v]
    requires t.taken == s.taken
    requires var b := s.sessions[w].channel;
             t.acked == s.acked[b := At(s.acked, b) + [s.sessions[w].curmsg.value]]
    ensures HandsOk(t)
  {
    var c, id := s.sessions[w].channel, s.sessions[w].curmsg.value;
    assert Holds(s, w, c, id);
    assert forall v, b, i :: Holds(t, v, b, i) <==> (Holds(s, v, b, i) && v != w);
    assert forall b, i :: i in At(t.acked, b) <==> (i in At(s.acked, b) || (b == c && i == id));
  }

  lemma ViewHands(s: World, w: nat, ok: bool)
    requires HandsOk(s) && Enabled(s, View(w, ok))
    ensures HandsOk(OnView(s, w, ok))
  {
    hide StoredBody, At, HandsOk;
    var x, t := s.sessions[w], OnView(s, w, ok);
    if t.crashed {
      HandsSame(s, t);
    } else {
      ReplaceHands(s, w, t.sessions[w]);
    }
  }

  lemma WriteHands(s: World, w: nat, slice: Option<string>, fault: Fault)
    requires SessionsOk(s) && HandsOk(s) && Enabled(s, Write(w, slice, fault))
    ensures HandsOk(OnWrite(s, w, slice, fault))
  {
    hide OnBody, Shows, At, HandsOk;
    var x, t := s.sessions[w], OnWrite(s, w, slice, fault);
    if slice.Some? {
      BodyKeeps(x, x.curmsg.value, slice.value, fault);
    }
    if t.crashed {
      HandsSame(s, t);
    } else {
      ReplaceHands(s, w, t.sessions[w]);
    }
  }

  lemma HandsKept(s: World, e: Event)
    requires Inv(s)
    ensures HandsOk(Step(s, e))
  {
    hide HandsOk, OnReceive, OnWorkerLine, OnView, OnWrite, Shows;
    if Enabled(s, e) {
      match e {
        case Take(w) => TakeHands(s, w);
        case Line(w, line, writes) => LineHands(s, w, line, writes);
        case View(w, ok) => ViewHands(s, w, ok);
        case Write(w, slice, fault) => WriteHands(s, w, slice, fault);
        case _ => OthersHands(s, e);
      }
    }
  }

  lemma OthersHands(s: World, e: Event)
    requires Inv(s) && Enabled(s, e) && !e.Take? && !e.Line? && !e.View? && !e.Write?
    ensures HandsOk(Step(s, e))
  {
    hide BucketOk, At;
    HandsSame(s, Step(s, e));
  }

  lemma {:induction false} InvHolds(events: seq<Event>)
    ensures Inv(Run(events))
  {
    if events == [] {
      assert forall b :: BucketOk(INITIAL, b);
    } else {
      hide Step;
      var s, e := Run(events[..|events| - 1]), events[|events| - 1];
      InvHolds(events[..|events| - 1]);
      SessionsKept(s, e);
      QueuesKept(s, e);
      HandsKept(s, e);
    }
  }

  // ------------------------------------------------------------------ the guarantees

  ghost function One(p: bool): nat {
    if p then 1 else 0
  }

  /** Held by a connection that still works on it. */
  ghost predicate Held(s: World, b: string, id: nat) {
    exists w :: Holds(s, w, b, id) && !s.sessions[w].phase.GivingBack?
  }

  /** Stranded with a connection that ended before acknowledging it. */
  ghost predicate GivenBack(s: World, b: string, id: nat) {
    exists w :: Holds(s, w, b, id) && s.sessions[w].phase.GivingBack?
  }

  /**
   In every reachable state each job ever sent to a bucket is in exactly one place: waiting
   in the channel, held by a connection in state 2, given back, or acknowledged. It is held
   by one connection at most.
   */
  lemma Conservation(events: seq<Event>, b: string, id: nat)
    requires 1 <= id <= |At(Run(events).sent, b)|
    ensures var s := Run(events);
      && One(id in At(s.channels, b)) + One(Held(s, b, id)) + One(GivenBack(s, b, id)) + One(id in At(s.acked, b)) == 1
      && (forall w, v :: Holds(s, w, b, id) && Holds(s, v, b, id) ==> w == v)
      && (forall w :: Holds(s, w, b, id) ==> s.sessions[w].state == 2)
  {
    var s := Run(events);
    InvHolds(events);
    assert BucketOk(s, b);
    WaitingOrTaken(s, b, id);
    forall w | Holds(s, w, b, id)
      ensures s.sessions[w].state == 2
    {
      assert SessionOk(s.sessions[w]);
    }
    hide Run, BucketOk, SessionOk;
    if id in At(s.taken, b) && id !in At(s.acked, b) {
      var w :| Holds(s, w, b, id);
      assert s.sessions[w].phase.GivingBack? <==> GivenBack(s, b, id);
    }
  }

  /** Of the ids sent, those in the channel are exactly those not taken. */
  lemma WaitingOrTaken(s: World, b: string, id: nat)
    requires BucketOk(s, b) && 1 <= id <= |At(s.sent, b)|
    ensures id in At(s.channels, b) <==> id !in At(s.taken, b)
  {
    SplitUpTo(At(s.taken, b), At(s.channels, b), |At(s.sent, b)|, id);
  }

  lemma SplitUpTo(taken: seq<nat>, queued: seq<nat>, n: nat, id: nat)
    requires taken + queued == UpTo(n) && 1 <= id <= n
    ensures id in queued <==> id !in taken
  {
    var all := taken + queued;
    forall i | 0 <= i < |taken|
      ensures taken[i] == i + 1
    {
      assert all[i] == taken[i];
    }
    forall i | 0 <= i < |queued|
      ensures queued[i] == |taken| + i + 1
    {
      assert all[|taken| + i] == queued[i];
    }
    if id <= |taken| {
      assert taken[id - 1] == id;
    } else {
      assert queued[id - |taken| - 1] == id;
    }
  }

  /**
   The ids taken from a bucket's channel, across all connections and in order of time, are
   1, 2, ...: a prefix of the ids sent, so none is overtaken and none is taken twice. The
   channel holds the rest and never more than 500.
   */
  lemma DeliveryOrder(events: seq<Event>, b: string)
    ensures var s := Run(events);
      && At(s.taken, b) == UpTo(|At(s.taken, b)|)
      && |At(s.taken, b)| + |At(s.channels, b)| == |At(s.sent, b)|
      && At(s.channels, b) == UpTo(|At(s.sent, b)|)[|At(s.taken, b)|..]
      && |At(s.channels, b)| <= 500
  {
    var s := Run(events);
    InvHolds(events);
    assert BucketOk(s, b);
    var taken, queued, n := At(s.taken, b), At(s.channels, b), |At(s.sent, b)|;
    assert (taken + queued)[..|taken|] == taken;
    assert UpTo(n)[..|taken|] == UpTo(|taken|);
    assert (taken + queued)[|taken|..] == queued;
  }

  /** A transaction that is about to send waits exactly while 500 ids are queued. */
  lemma SenderWaits(events: seq<Event>)
    ensures var s := Run(events);
      !s.crashed && s.txn.Some? && !s.txn.value.sent ==>
        (!Enabled(s, Send) <==> |At(s.channels, s.txn.value.bucket)| == 500)
  {
    var s := Run(events);
    if s.txn.Some? {
      DeliveryOrder(events, s.txn.value.bucket);
    }
  }

  /** History only grows: what was sent, taken or acknowledged stays so, in its place. */
  lemma HistoryGrows(s: World, e: Event, b: string)
    ensures var t := Step(s, e);
      At(s.sent, b) <= At(t.sent, b) && At(s.taken, b) <= At(t.taken, b) && At(s.acked, b) <= At(t.acked, b)
  {
    hide OnLine, OnView, OnWrite, OnTake, StoredBody, NewSession, Leave, SeqNo, Shows;
    if e.Line? && Enabled(s, e) {
      AckedGrows(s, e.w, e.line, e.writes, b);
    }
    hide OnWorkerLine;
  }

  lemma AckedGrows(s: World, w: nat, line: string, writes: bool, b: string)
    requires w in s.sessions
    ensures At(s.acked, b) <= At(OnWorkerLine(s, w, line, writes).acked, b)
  {
    hide OnLine;
  }

  /** What was posted as job `id` of bucket `b`. */
  function Posted(s: World, b: string, id: nat): string {
    if 1 <= id <= |At(s.sent, b)| then At(s.sent, b)[id - 1] else ""
  }

  /**
   The lookup finds the body that was posted (never an empty one) exactly when the transaction
   that stored it has committed by then, and it crashes exactly when none of the bucket has: the
   send comes before the commit, so a connection can be too early.
   */
  lemma LookupAfterCommit(events: seq<Event>, w: nat)
    requires Enabled(Run(events), View(w, true))
    ensures var (s, t) := (Run(events), Step(Run(events), View(w, true)));
      var (b, id) := (s.sessions[w].channel, s.sessions[w].curmsg.value);
      && 1 <= id <= |At(s.sent, b)|
      && (t.crashed <==> SeqNo(s.store, b) == 0)
      && (!t.crashed && Posted(s, b, id) != "" ==>
            (t.sessions[w].view == Posted(s, b, id) <==> id <= SeqNo(s.store, b)))
  {
    InvHolds(events);
    var s := Run(events);
    var b, id := s.sessions[w].channel, s.sessions[w].curmsg.value;
    hide Run;
    assert BucketOk(s, b) && Holds(s, w, b, id);
    TakenIsSent(s, b, id);
    StoredOnceCommitted(s, b, id);
    LookupResult(s, w);
    hide Step, StoredBody, Inv, At;
  }

  lemma LookupResult(s: World, w: nat)
    requires Enabled(s, View(w, true))
    ensures var (x, t) := (s.sessions[w], Step(s, View(w, true)));
      && (t.crashed <==> x.channel !in s.store)
      && (!t.crashed ==> t.sessions[w] == OnLookup(x, StoredBody(s.store, x.channel, x.curmsg.value), s.commits))
  {
    hide StoredBody;
  }

  lemma WriteResult(s: World, w: nat, slice: Option<string>)
    requires Enabled(s, Write(w, slice, NoFault))
    ensures var (x, t) := (s.sessions[w], Step(s, Write(w, slice, NoFault)));
      && (t.crashed <==> slice.None?)
      && (slice.Some? ==>
            t.sessions[w].delivered == x.delivered + [Job(x.curmsg.value, slice.value)])
  {
    hide Frame, Header, Shows;
  }

  /** The job connection `w` is handling is written with the body that was posted for it. */
  predicate DeliversPosted(s: World, w: nat, slice: Option<string>)
    requires Enabled(s, Write(w, slice, NoFault))
  {
    var (x, t) := (s.sessions[w], Step(s, Write(w, slice, NoFault)));
    var (id, b) := (x.curmsg.value, x.channel);
    !t.crashed && t.sessions[w].delivered == x.delivered + [Job(id, Posted(s, b, id))]
  }

  /** A lookup's result is up to date as long as no transaction has committed since. */
  predicate ViewOk(s: World, x: Session) {
    x.phase.Writing? && x.curmsg.Some? ==>
      && x.viewedAt <= s.commits
      && (x.viewedAt == s.commits ==> x.view == StoredBody(s.store, x.channel, x.curmsg.value))
  }

  lemma ViewStays(s: World, e: Event, x: Session)
    requires ViewOk(s, x)
    ensures ViewOk(Step(s, e), x)
  {
    hide OnLine, OnBody, StoredBody, NewSession, Leave, SeqNo, Shows, At;
    match e {
      case View(w, ok) =>
      case Write(w, slice, fault) =>
      case _ =>
    }
  }

  lemma MoveView(s: World, x: Session, m: Move)
    requires SessionOk(x) && Allowed(x, m) && ViewOk(s, x)
    requires m.ByView? ==> x.curmsg.Some?
    requires m.ByView? ==> m == ByView(StoredBody(s.store, x.channel, x.curmsg.value), s.commits)
    ensures ViewOk(s, Moved(x, m))
  {
    hide OnLine, StoredBody;
    match m {
      case ByLine(line, writes, made) => LineKeeps(x, line, writes, made);
      case _ =>
    }
  }

  lemma {:induction false} ViewHolds(events: seq<Event>, w: nat)
    requires w in Run(events).sessions
    ensures ViewOk(Run(events), Run(events).sessions[w])
  {
    if events != [] {
      hide Step, ViewOk, SessionOk, Moved, Allowed, NewSession, Inv;
      var before, e := events[..|events| - 1], events[|events| - 1];
      var s := Run(before);
      if w in s.sessions {
        InvHolds(before);
        ViewHolds(before, w);
        var m := MoveOf(s, e, w);
        InvSession(s, w);
        MoveView(s, s.sessions[w], m);
        ViewStays(s, e, Moved(s.sessions[w], m));
      } else {
        Arrival(s, e, w);
        FreshView(Run(events));
      }
    }
  }

  lemma FreshView(s: World)
    ensures ViewOk(s, NewSession())
  {
  }

  /**
   A job's frame carries the posted body exactly when v still shows it. That is so exactly when
   the job's transaction has committed, as long as no transaction commits between lookup and write.
   */
  lemma FetchAfterCommit(events: seq<Event>, w: nat, slice: Option<string>)
    requires Enabled(Run(events), Write(w, slice, NoFault))
    ensures var s := Run(events);
      var (x, b, id) := (s.sessions[w], s.sessions[w].channel, s.sessions[w].curmsg.value);
      && 1 <= id <= |At(s.sent, b)|
      && (DeliversPosted(s, w, slice) <==> slice == Some(Posted(s, b, id)))
      && (Steady(s, x) && Posted(s, b, id) != "" ==>
            (DeliversPosted(s, w, slice) <==> id <= SeqNo(s.store, b)))
  {
    InvHolds(events);
    ViewHolds(events, w);
    var s := Run(events);
    var x, b, id := s.sessions[w], s.sessions[w].channel, s.sessions[w].curmsg.value;
    hide Run;
    assert BucketOk(s, b) && Holds(s, w, b, id);
    TakenIsSent(s, b, id);
    StoredOnceCommitted(s, b, id);
    WriteResult(s, w, slice);
    hide Step, BucketOk, StoredBody, Inv, At, SeqNo, Posted;
    if slice.Some? {
      LastOf(x.delivered, Job(id, slice.value), Job(id, Posted(s, b, id)));
    }
  }

  lemma StoredOnceCommitted(s: World, b: string, id: nat)
    requires BucketOk(s, b) && 1 <= id <= |At(s.sent, b)|
    ensures id <= SeqNo(s.store, b) ==> b in s.store && StoredBody(s.store, b, id) == At(s.sent, b)[id - 1]
    ensures id > SeqNo(s.store, b) ==> StoredBody(s.store, b, id) == ""
  {
  }

  lemma LastOf<T>(s: seq<T>, x: T, y: T)
    ensures s + [x] == s + [y] <==> x == y
  {
    assert (s + [x])[|s|] == x && (s + [y])[|s|] == y;
  }

  lemma TakenIsSent(s: World, b: string, id: nat)
    requires BucketOk(s, b) && id in At(s.taken, b)
    ensures 1 <= id <= |At(s.sent, b)|
  {
    var i :| 0 <= i < |At(s.taken, b)| && At(s.taken, b)[i] == id;
    assert (At(s.taken, b) + At(s.channels, b))[i] == id;
  }

  lemma RunSnoc(events: seq<Event>, e: Event)
    ensures Run(events + [e]) == Step(Run(events), e)
  {
    hide Step;
    InitOfSnoc(events, e);
  }

  lemma Words(made: bool)
    ensures OnLine(NewSession(), "CHAN q", true, made)
         == Some(NewSession().(channel := "q", out := GREETING + "READY\r\n", state := 1))
    ensures forall x: Session :: x.state == 1 ==>
              OnLine(x, "READY", true, made) == Some(x.(phase := if made then Selecting else Stuck))
  {
    TrimSpaceOfGraphic("CHAN q");
    TrimSpaceOfGraphic("READY");
    CutAt("CHAN", ' ', "q");
    assert "CHAN" + [' '] + "q" == "CHAN q";
    assert SplitN("q", ' ', 1) == ["q"];
    assert SplitN("CHAN q", ' ', 2) == ["CHAN", "q"];
    assert SplitN("READY", ' ', 2) == ["READY"];
  }

  /** A connection waiting for a bucket whose first job has been sent but not committed. */
  predicate Waiting(s: World, x: Session) {
    && !s.crashed && s.store == map[] && 0 in s.sessions && s.sessions[0] == x
    && x.phase.Selecting? && x.channel == "q" && "q" in s.channels
  }

  /** Being too early is possible: a worker that is already waiting for a bucket's first job. */
  lemma TooEarly() returns (events: seq<Event>)
    ensures Enabled(Run(events), View(0, true)) && Step(Run(events), View(0, true)).crashed
  {
    var early := WaitingEarly();
    hide Run, OnLine, Waiting;
    RunSnoc(early, Send);
    RunSnoc(early + [Send], Take(0));
    events := early + [Send] + [Take(0)];
    TakenEarly(Run(early), Run(early).sessions[0]);
  }

  lemma TakenEarly(s: World, x: Session)
    requires Waiting(s, x) && At(s.channels, "q") == [] && s.txn == Some(Txn("q", 1, "x", false))
    ensures var t := Step(Step(s, Send), Take(0));
            Enabled(t, View(0, true)) && Step(t, View(0, true)).crashed
  {
    var sent := Step(s, Send);
    assert At(sent.channels, "q") == [1];
    assert Waiting(sent, x) && Enabled(sent, Take(0));
    var t := Step(sent, Take(0));
    assert t.sessions[0] == OnTake(x, 1) && t.store == map[] && !t.crashed;
  }

  lemma WaitingEarly() returns (events: seq<Event>)
    ensures var s := Run(events);
      && 0 in s.sessions && Waiting(s, s.sessions[0])
      && At(s.channels, "q") == [] && s.txn == Some(Txn("q", 1, "x", false))
      && At(s.sent, "q") == [] && s.sessions[0].delivered == []
  {
    hide OnLine, GREETING;
    Words(true);
    Words(false);
    RunSnoc([], Connect(0));
    var e1 := [] + [Connect(0)];
    RunSnoc(e1, Line(0, "CHAN q", true));
    var e2 := e1 + [Line(0, "CHAN q", true)];
    assert Run([]) == INITIAL;
    hide Run;
    var s2 := Run(e2);
    assert s2.sessions[0].state == 1 && s2.sessions[0].channel == "q" && s2.sessions[0].phase.Reading?;
    assert !s2.crashed && s2.store == map[] && s2.txn == None && s2.channels == map[];
    RunSnoc(e2, Begin("q", "x"));
    var e3 := e2 + [Begin("q", "x")];
    RunSnoc(e3, Line(0, "READY", true));
    events := e3 + [Line(0, "READY", true)];
  }

  /** A run in which a commit comes between lookup and write, and other bytes go out under the job's id. */
  lemma TornJob() returns (events: seq<Event>)
    ensures var s := Run(events);
      && 0 in s.sessions && s.sessions[0].delivered == [Job(1, "z")] && At(s.sent, "q") == ["x", "y"]
  {
    var early := WaitingEarly();
    var looked := early + [Send] + [Commit] + [Take(0)] + [View(0, true)];
    hide Run, Step, Waiting, Looked;
    RunSnoc(early, Send);
    RunSnoc(early + [Send], Commit);
    RunSnoc(early + [Send] + [Commit], Take(0));
    RunSnoc(early + [Send] + [Commit] + [Take(0)], View(0, true));
    LookedUp(Run(early), Run(early).sessions[0]);
    RunSnoc(looked, Begin("q", "y"));
    RunSnoc(looked + [Begin("q", "y")], Send);
    RunSnoc(looked + [Begin("q", "y")] + [Send], Commit);
    RunSnoc(looked + [Begin("q", "y")] + [Send] + [Commit], Write(0, Some("z"), NoFault));
    events := looked + [Begin("q", "y")] + [Send] + [Commit] + [Write(0, Some("z"), NoFault)];
    Overwritten(Run(looked));
  }

  /** The first job is looked up, and its bytes are still to be written. */
  predicate Looked(s: World) {
    && !s.crashed && s.txn.None? && 0 in s.sessions
    && var x := s.sessions[0];
    && x.phase.Writing? && x.curmsg == Some(1) && x.view == "x" && x.delivered == [] && x.viewedAt == s.commits
    && "q" in s.channels && At(s.channels, "q") == [] && At(s.sent, "q") == ["x"]
  }

  lemma LookedUp(s: World, x: Session)
    requires Waiting(s, x) && At(s.channels, "q") == [] && s.txn == Some(Txn("q", 1, "x", false))
    requires At(s.sent, "q") == [] && x.delivered == []
    ensures Looked(Step(Step(Step(Step(s, Send), Commit), Take(0)), View(0, true)))
  {
    hide OnBody;
    var sent := Step(s, Send);
    assert At(sent.channels, "q") == [1] && At(sent.sent, "q") == ["x"];
    var stored := Step(sent, Commit);
    assert stored.store["q"].jobs[1] == "x" && Waiting(stored.(store := map[]), x);
    assert Enabled(stored, Take(0));
    var taken := Step(stored, Take(0));
    assert taken.sessions[0] == OnTake(x, 1) && At(taken.channels, "q") == [];
    assert Enabled(taken, View(0, true));
  }

  lemma Overwritten(s: World)
    requires Looked(s)
    ensures var t := Step(Step(Step(Step(s, Begin("q", "y")), Send), Commit), Write(0, Some("z"), NoFault));
      && 0 in t.sessions && t.sessions[0].delivered == [Job(1, "z")] && At(t.sent, "q") == ["x", "y"]
  {
    hide Frame, Header;
    var t := Step(Step(Step(s, Begin("q", "y")), Send), Commit);
    assert At(t.sent, "q") == ["x"] + ["y"];
    assert t.sessions == s.sessions && t.commits == s.commits + 1 && !t.crashed;
    assert Enabled(t, Write(0, Some("z"), NoFault));
    WriteResult(t, 0, Some("z"));
    assert [] + [Job(1, "z")] == [Job(1, "z")];
  }

  /**
   The session invariant, over any lines from any workers: state 2 means a message in hand,
   jobs taken exceed acknowledgements by one exactly then, and a connection that ends in
   state 2 has the message it gives back.
   */
  lemma SessionAccount(events: seq<Event>, w: nat)
    requires w in Run(events).sessions
    ensures var x := Run(events).sessions[w];
      && (x.state == 2 <==> x.curmsg.Some?)
      && x.takes - x.oks == One(x.state == 2)
      && (x.phase.GivingBack? ==> x.curmsg.Some?)
      && (x.phase.Closed? ==> x.curmsg.None?)
  {
    InvHolds(events);
    assert SessionOk(Run(events).sessions[w]);
  }

  // --------------------------------------------------------- what was posted

  /** The bodies of the transactions that were begun on a bucket, in order. */
  function Begun(events: seq<Event>, b: string): seq<string> {
    if events == [] then []
    else
      var before, e := events[..|events| - 1], events[|events| - 1];
      Begun(before, b) +
      if e.Begin? && e.bucket == b && Enabled(Run(before), e) then [e.body] else []
  }

  /** The body of a transaction that has not sent its message yet. */
  function Unsent(txn: Option<Txn>, b: string): seq<string> {
    if txn.Some? && txn.value.bucket == b && !txn.value.sent then [txn.value.body] else []
  }

  lemma BegunStep(s: World, e: Event, b: string)
    ensures var t := Step(s, e);
      At(t.sent, b) + Unsent(t.txn, b) ==
      At(s.sent, b) + Unsent(s.txn, b) + if e.Begin? && e.bucket == b && Enabled(s, e) then [e.body] else []
  {
    hide OnLine, OnView, OnWrite, OnReceive, OnWorkerLine, Shows, SeqNo;
    if e.Take? && Enabled(s, e) {
      SentByTake(s, e.w);
    }
  }

  lemma SentByTake(s: World, w: nat)
    requires Enabled(s, Take(w))
    ensures OnReceive(s, w).sent == s.sent && OnReceive(s, w).txn == s.txn
  {
  }

  /** The jobs sent to a bucket are the bodies posted to it, in order; only the last may be on its way. */
  lemma {:induction false} SentAreBegun(events: seq<Event>, b: string)
    ensures var s := Run(events); At(s.sent, b) + Unsent(s.txn, b) == Begun(events, b)
  {
    if events != [] {
      hide Step, Enabled;
      var before, e := events[..|events| - 1], events[|events| - 1];
      SentAreBegun(before, b);
      BegunStep(Run(before), e, b);
    }
  }

  // -------------------------------------------------- the words of the protocol

  /** The first word of the trimmed line: what precedes its first blank. */
  function Word(line: string): string {
    var t := TrimSpace(line);
    var i := IndexByte(t, ' ');
    if i < 0 then t else t[..i]
  }

  /** What follows the first blank, if there is one. */
  function Argument(line: string): Option<string> {
    var t := TrimSpace(line);
    var i := IndexByte(t, ' ');
    if i < 0 then None else Some(t[i + 1..])
  }

  lemma TokensAre(line: string)
    ensures SplitN(TrimSpace(line), ' ', 2) ==
            if Argument(line).None? then [Word(line)] else [Word(line), Argument(line).value]
  {
    hide TrimSpace, IndexByte;
    var t := TrimSpace(line);
    var i := IndexByte(t, ' ');
    if i >= 0 {
      assert SplitN(t[i + 1..], ' ', 1) == [t[i + 1..]];
    }
  }

  /** The connection ends: for ever blocked at giving back its job, if it has one. */
  predicate Ends(x: Session, y: Session) {
    && y.phase == (if x.curmsg.Some? then GivingBack else Closed)
    && y.curmsg == x.curmsg && y.takes == x.takes && y.oks == x.oks && y.delivered == x.delivered
  }

  /** Only one connection changes, and nothing of the queues does. */
  predicate OnlyAt(s: World, t: World, w: nat) {
    && !t.crashed && SameQueues(s, t) && t.sessions.Keys == s.sessions.Keys && w in s.sessions
    && forall v :: v in s.sessions && v != w ==> t.sessions[v] == s.sessions[v]
  }

  /**
   With a job in hand: "OK" acknowledges exactly that job and makes the connection ready for the
   next, an answered "PONG" changes nothing, and any other line, or a failure, ends the connection
   with the job in hand.
   */
  lemma LineWithJob(events: seq<Event>, w: nat, line: string, writes: bool)
    requires Enabled(Run(events), Line(w, line, writes)) && Run(events).sessions[w].state == 2
    ensures var (s, t) := (Run(events), Step(Run(events), Line(w, line, writes)));
      var x := s.sessions[w];
      && x.curmsg.Some? && OnlyAt(s, t, w)
      && (if Word(line) == "OK" then
            && t.acked == s.acked[x.channel := At(s.acked, x.channel) + [x.curmsg.value]]
            && t.sessions[w] == x.(curmsg := None, state := 1, oks := x.oks + 1)
            && t.sessions[w].phase.Reading?
          else
            && t.acked == s.acked
            && (if Word(line) == "PONG" && writes then t == s
                else
                  && Ends(x, t.sessions[w])
                  && t.sessions[w].out == if Word(line) != "PONG" && writes then x.out + "INVALID\r\n" else x.out))
  {
    InvHolds(events);
    var s := Run(events);
    InvSession(s, w);
    JobInHand(s.sessions[w]);
    hide Run, Inv, SessionOk, Word, Ends, OnlyAt, At, Step;
    if Word(line) == "OK" {
      OkAcknowledges(s, w, line, writes);
    } else if Word(line) == "PONG" && writes {
      PongChangesNothing(s, w, line);
    } else {
      OtherEnds(s, w, line, writes);
    }
  }

  lemma JobInHand(x: Session)
    requires SessionOk(x) && x.state == 2
    ensures x.curmsg.Some?
  {
  }

  lemma OkAcknowledges(s: World, w: nat, line: string, writes: bool)
    requires Enabled(s, Line(w, line, writes)) && s.sessions[w].state == 2 && s.sessions[w].curmsg.Some?
    requires Word(line) == "OK"
    ensures var (x, t) := (s.sessions[w], Step(s, Line(w, line, writes)));
      && OnlyAt(s, t, w) && t.acked == s.acked[x.channel := At(s.acked, x.channel) + [x.curmsg.value]]
      && t.sessions[w] == x.(curmsg := None, state := 1, oks := x.oks + 1) && t.sessions[w].phase.Reading?
  {
    var x := s.sessions[w];
    OnLineWithJob(x, line, writes, x.channel in s.channels);
    LineStep(s, w, line, writes);
    hide OnLine, At, Word, Reply, Leave, Step, SameQueues;
  }

  lemma PongChangesNothing(s: World, w: nat, line: string)
    requires Enabled(s, Line(w, line, true)) && s.sessions[w].state == 2 && Word(line) == "PONG"
    ensures Step(s, Line(w, line, true)) == s && OnlyAt(s, s, w)
  {
    var x := s.sessions[w];
    OnLineWithJob(x, line, true, x.channel in s.channels);
    LineStep(s, w, line, true);
    SessionsPut(s, w);
    hide OnLine, At, Word, Reply, Leave, Step, SameQueues;
  }

  lemma OtherEnds(s: World, w: nat, line: string, writes: bool)
    requires Enabled(s, Line(w, line, writes)) && s.sessions[w].state == 2 && SessionOk(s.sessions[w])
    requires Word(line) != "OK" && !(Word(line) == "PONG" && writes)
    ensures var (x, t) := (s.sessions[w], Step(s, Line(w, line, writes)));
      && OnlyAt(s, t, w) && t.acked == s.acked && Ends(x, t.sessions[w])
      && t.sessions[w].out == if Word(line) != "PONG" && writes then x.out + "INVALID\r\n" else x.out
  {
    var x := s.sessions[w];
    OnLineWithJob(x, line, writes, x.channel in s.channels);
    EndsByReply(x, "INVALID\r\n", writes);
    EndsByReply(x, "", false);
    hide OnLine, At, Word, Reply, Leave, SameQueues;
    LineStep(s, w, line, writes);
    hide Step;
  }

  lemma OnLineWithJob(x: Session, line: string, writes: bool, made: bool)
    requires x.state == 2
    ensures OnLine(x, line, writes, made) ==
      Some(if Word(line) == "OK" then x.(curmsg := None, state := 1, oks := x.oks + 1)
           else if Word(line) == "PONG" then (if writes then x else Leave(Reply(x, "", false)))
           else Leave(Reply(x, "INVALID\r\n", writes)))
  {
    TokensAre(line);
    hide TrimSpace, SplitN, IndexByte, Word, Argument;
  }

  lemma OnLineWithoutJob(x: Session, line: string, writes: bool, made: bool)
    requires x.state == 1
    ensures OnLine(x, line, writes, made) ==
      Some(if Word(line) == "READY" then x.(phase := if made then Selecting else Stuck)
           else Leave(Reply(x, "INVALID\r\n", writes)))
  {
    TokensAre(line);
    hide TrimSpace, SplitN, IndexByte, Word, Argument;
  }

  lemma OnLineBeforeChannel(x: Session, line: string, writes: bool, made: bool)
    requires x.state == 0
    ensures OnLine(x, line, writes, made) ==
      if Word(line) != "CHAN" then Some(Leave(Reply(x, "INVALID\r\n", writes)))
      else if Argument(line).None? then None
      else if writes then Some(x.(channel := Argument(line).value, state := 1, out := x.out + "READY\r\n"))
      else Some(Leave(x.(channel := Argument(line).value)))
  {
    TokensAre(line);
    hide TrimSpace, SplitN, IndexByte, Word, Argument;
  }

  /** Leaving with a last word, whether or not it can be written. */
  lemma EndsByReply(x: Session, text: string, writes: bool)
    requires SessionOk(x)
    ensures var y := Leave(Reply(x, text, writes)); Ends(x, y) && y.out == if writes then x.out + text else x.out
  {
  }

  /** A line changes its own connection only, and the acknowledged jobs if it acknowledges one. */
  lemma LineStep(s: World, w: nat, line: string, writes: bool)
    requires Enabled(s, Line(w, line, writes))
    ensures var (x, t) := (s.sessions[w], Step(s, Line(w, line, writes)));
      var next := OnLine(x, line, writes, x.channel in s.channels);
      && (t.crashed <==> next.None?)
      && (next.None? ==> t == s.(crashed := true))
      && (next.Some? ==>
            && OnlyAt(s, t, w) && t.sessions == s.sessions[w := next.value]
            && t == s.(sessions := s.sessions[w := next.value], acked := t.acked)
            && t.acked == if next.value.oks > x.oks && x.curmsg.Some?
                          then s.acked[x.channel := At(s.acked, x.channel) + [x.curmsg.value]] else s.acked)
  {
    hide OnLine, At;
  }

  lemma SessionsPut(s: World, w: nat)
    requires w in s.sessions
    ensures s.sessions[w := s.sessions[w]] == s.sessions
  {
  }

  /** After the handshake, with no job in hand: only "READY" leads on, to waiting for a job. */
  lemma LineWithoutJob(events: seq<Event>, w: nat, line: string, writes: bool)
    requires Enabled(Run(events), Line(w, line, writes)) && Run(events).sessions[w].state == 1
    ensures var (s, t) := (Run(events), Step(Run(events), Line(w, line, writes)));
      var x := s.sessions[w];
      && OnlyAt(s, t, w) && t.acked == s.acked
      && (if Word(line) == "READY" then
            t.sessions[w] == x.(phase := if x.channel in s.channels then Selecting else Stuck)
          else
            && Ends(x, t.sessions[w]) && t.sessions[w].phase.Closed?
            && t.sessions[w].out == if writes then x.out + "INVALID\r\n" else x.out)
  {
    InvHolds(events);
    var s := Run(events);
    var x := s.sessions[w];
    InvSession(s, w);
    OnLineWithoutJob(x, line, writes, x.channel in s.channels);
    EndsByReply(x, "INVALID\r\n", writes);
    hide Run, Inv, OnLine, At, Word, Reply, Leave;
    LineStep(s, w, line, writes);
  }

  /** At first: only "CHAN" with an argument leads on; without one it ends the process. */
  lemma LineBeforeChannel(events: seq<Event>, w: nat, line: string, writes: bool)
    requires Enabled(Run(events), Line(w, line, writes)) && Run(events).sessions[w].state == 0
    ensures var (s, t) := (Run(events), Step(Run(events), Line(w, line, writes)));
      var x := s.sessions[w];
      && t.acked == s.acked
      && (t.crashed <==> Word(line) == "CHAN" && Argument(line).None?)
      && (!t.crashed ==> OnlyAt(s, t, w))
      && (!t.crashed && Word(line) == "CHAN" && writes ==>
            t.sessions[w] == x.(channel := Argument(line).value, state := 1, out := x.out + "READY\r\n"))
      && (Word(line) != "CHAN" || (Argument(line).Some? && !writes) ==>
            && Ends(x, t.sessions[w]) && t.sessions[w].phase.Closed?
            && t.sessions[w].out == if writes then x.out + "INVALID\r\n" else x.out)
  {
    InvHolds(events);
    var s := Run(events);
    var x := s.sessions[w];
    InvSession(s, w);
    OnLineBeforeChannel(x, line, writes, x.channel in s.channels);
    EndsByReply(x, "INVALID\r\n", writes);
    if Argument(line).Some? {
      EndsByReply(x.(channel := Argument(line).value), "", false);
    }
    hide Run, Inv, OnLine, At, Word, Argument;
    LineStep(s, w, line, writes);
  }

  /** A connection that breaks, or whose lookup fails, ends with the job it has in hand. */
  lemma BrokenEnds(events: seq<Event>, e: Event)
    requires Enabled(Run(events), e) && (e.Hangup? || (e.View? && !e.ok))
    ensures var (s, t) := (Run(events), Step(Run(events), e));
      OnlyAt(s, t, e.w) && t.acked == s.acked && Ends(s.sessions[e.w], t.sessions[e.w])
      && t.sessions[e.w].out == s.sessions[e.w].out
  {
    InvHolds(events);
    InvSession(Run(events), e.w);
    hide Run, Inv, At;
  }

  /** The event is an "OK" that the bucket's worker w sends with a job in hand. */
  predicate Acknowledges(s: World, e: Event, b: string) {
    e.Line? && Enabled(s, e) && s.sessions[e.w].state == 2 && s.sessions[e.w].channel == b && Word(e.line) == "OK"
  }

  /** A bucket's acknowledged jobs grow exactly by such an event, and by exactly the job in hand. */
  lemma AckedByOk(events: seq<Event>, e: Event, b: string)
    ensures var s := Run(events);
      && (Acknowledges(s, e, b) ==> s.sessions[e.w].curmsg.Some?)
      && At(Step(s, e).acked, b) ==
           if Acknowledges(s, e, b) then At(s.acked, b) + [s.sessions[e.w].curmsg.value] else At(s.acked, b)
  {
    var s := Run(events);
    if e.Line? && Enabled(s, e) {
      InvHolds(events);
      InvSession(s, e.w);
      StateIs(s.sessions[e.w]);
      if s.sessions[e.w].state == 2 {
        LineWithJob(events, e.w, e.line, e.writes);
      } else if s.sessions[e.w].state == 1 {
        LineWithoutJob(events, e.w, e.line, e.writes);
      } else {
        LineBeforeChannel(events, e.w, e.line, e.writes);
      }
      hide Step, Run, Inv, Word, Argument, OnlyAt, Ends, SessionOk, InPhase;
    } else {
      hide Run, Word;
      AckedStays(s, e);
    }
  }

  lemma StateIs(x: Session)
    requires SessionOk(x)
    ensures x.state in {0, 1, 2}
  {
  }

  lemma AckedStays(s: World, e: Event)
    requires e.Line? ==> !Enabled(s, e)
    ensures Step(s, e).acked == s.acked
  {
    hide OnView, OnWrite, Shows, StoredBody, At;
  }

  /** What each outcome of the write leaves; failing anywhere keeps the job in hand to be given back. */
  lemma WriteLeaves(events: seq<Event>, w: nat, slice: Option<string>, fault: Fault)
    requires Enabled(Run(events), Write(w, slice, fault))
    ensures var (s, t) := (Run(events), Step(Run(events), Write(w, slice, fault)));
      var (x, id) := (s.sessions[w], s.sessions[w].curmsg.value);
      && (t.crashed <==> slice.None? && fault != HeaderFails)
      && (!t.crashed ==>
            var y := t.sessions[w];
            && OnlyAt(s, t, w) && t.acked == s.acked && y.curmsg == Some(id) && y.state == 2
            && y.phase == (if fault == NoFault then Reading else GivingBack)
            && y.delivered == x.delivered +
                 (if fault == NoFault || fault == DeadlineFails then [Job(id, slice.value)] else [])
            && y.out == x.out +
                 match fault
                 case HeaderFails => ""
                 case BodyFails => Header(id, |slice.value|)
                 case _ => Header(id, |slice.value|) + slice.value)
  {
    InvHolds(events);
    InvSession(Run(events), w);
    hide Run, Inv, Header, Shows, At;
  }

  // ------------------------------------------------------------------- on the wire

  /** What a connection has written by the time it is in a given state, before any frame. */
  function Handshake(state: int): string {
    "HELLO hfast.v1\r\n" + if state == 0 then "" else "READY\r\n"
  }

  predicate Live(x: Session) {
    x.phase.Reading? || x.phase.Selecting? || x.phase.Stuck? || x.phase.Handling? || x.phase.Writing?
  }

  /** A live connection has written the handshake and then whole frames, one per job delivered. */
  predicate WireOk(x: Session) {
    Live(x) ==>
      && x.out == Handshake(x.state) + Frames(x.delivered)
      && |x.delivered| == x.takes - (if x.phase.Handling? || x.phase.Writing? then 1 else 0)
      && (x.state == 0 ==> x.takes == 0)
  }

  lemma LineWire(x: Session, line: string, writes: bool, channelMade: bool)
    requires SessionOk(x) && WireOk(x) && x.phase.Reading?
    ensures var y := OnLine(x, line, writes, channelMade); y.Some? ==> WireOk(y.value)
  {
    hide SplitN, TrimSpace, Frame;
    if x.state == 0 {
      assert x.delivered == [] && Frames(x.delivered) == "";
      assert Handshake(0) + "" + "READY\r\n" == Handshake(1) + "";
    }
  }

  lemma BodyWire(x: Session, id: nat, body: string, fault: Fault)
    requires SessionOk(x) && WireOk(x) && x.phase.Writing?
    ensures WireOk(OnBody(x, id, body, fault))
  {
    hide Frame, Header, Handshake;
    FramesSnoc(x.delivered, Job(id, body));
    ConcatAssoc(Handshake(x.state), Frames(x.delivered), Frame(Job(id, body)));
  }

  lemma MoveWire(x: Session, m: Move)
    requires SessionOk(x) && WireOk(x) && Allowed(x, m)
    ensures WireOk(Moved(x, m))
  {
    hide OnLine, OnBody, Frames;
    match m {
      case ByLine(line, writes, made) => LineWire(x, line, writes, made);
      case ByBody(id, body, fault) => BodyWire(x, id, body, fault);
      case _ =>
    }
  }

  lemma FreshWire()
    ensures WireOk(NewSession())
  {
    assert Frames([]) == "" && Handshake(0) + "" == GREETING;
  }

  lemma {:induction false} WireHolds(events: seq<Event>, w: nat)
    requires w in Run(events).sessions
    ensures WireOk(Run(events).sessions[w])
  {
    if events != [] {
      hide Step, WireOk, SessionOk, Moved, Allowed, NewSession, Inv;
      var before, e := events[..|events| - 1], events[|events| - 1];
      if w in Run(before).sessions {
        InvHolds(before);
        WireHolds(before, w);
        var m := MoveOf(Run(before), e, w);
        InvSession(Run(before), w);
        MoveWire(Run(before).sessions[w], m);
      } else {
        Arrival(Run(before), e, w);
        FreshWire();
      }
    }
  }

  lemma InvSession(s: World, w: nat)
    requires Inv(s) && w in s.sessions
    ensures SessionOk(s.sessions[w])
  {
  }

  /** A worker that reads on after the handshake recovers exactly the jobs delivered to it, in order. */
  lemma WorkerReadsJobs(events: seq<Event>, w: nat)
    requires w in Run(events).sessions && Live(Run(events).sessions[w])
    requires forall job :: job in Run(events).sessions[w].delivered ==> job.id <= MAX_INT64 && |job.body| <= MAX_INT64
    ensures var x := Run(events).sessions[w];
      && Handshake(x.state) <= x.out
      && ReadAll(x.out[|Handshake(x.state)|..]) == Some(x.delivered)
  {
    WireHolds(events, w);
    hide Run, Handshake;
    var x := Run(events).sessions[w];
    CutBody(Handshake(x.state), Frames(x.delivered));
    FramesRoundTrip(x.delivered);
  }

  // ------------------------------------------------------ what was delivered

  /** Each write of the run finds the bytes that its lookup found. */
  ghost predicate Untorn(events: seq<Event>) {
    events != [] ==>
      var before, e := events[..|events| - 1], events[|events| - 1];
      && Untorn(before)
      && (e.Write? && Enabled(Run(before), e) ==> e.slice == Some(Run(before).sessions[e.w].view))
  }

  /** No transaction of the run commits between a lookup and the write of what it found. */
  ghost predicate SteadyWrites(events: seq<Event>) {
    events != [] ==>
      var before, e := events[..|events| - 1], events[|events| - 1];
      && SteadyWrites(before)
      && (e.Write? && Enabled(Run(before), e) ==> Steady(Run(before), Run(before).sessions[e.w]))
  }

  lemma {:induction false} SteadyIsUntorn(events: seq<Event>)
    requires SteadyWrites(events)
    ensures Untorn(events)
  {
    hide Run;
    if events != [] {
      SteadyIsUntorn(events[..|events| - 1]);
    }
  }

  /** A delivered body: none, or one of the posted length, and the posted one unless torn. */
  predicate BodyPosted(body: string, posted: string, untorn: bool) {
    body == "" || (|body| == |posted| && (untorn ==> body == posted))
  }

  predicate JobPosted(s: World, b: string, job: Job, untorn: bool) {
    && 1 <= job.id <= |At(s.taken, b)| <= |At(s.sent, b)|
    && BodyPosted(job.body, Posted(s, b, job.id), untorn)
  }

  /** What a connection has delivered, and is about to deliver, are jobs posted to its bucket, in order. */
  predicate DeliveredOk(s: World, x: Session, untorn: bool) {
    && (x.state == 0 ==> x.delivered == [])
    && (forall i :: 0 <= i < |x.delivered| ==> JobPosted(s, x.channel, x.delivered[i], untorn))
    && (forall i, j :: 0 <= i < j < |x.delivered| ==> x.delivered[i].id < x.delivered[j].id)
    && ((x.phase.Handling? || x.phase.Writing?) && x.curmsg.Some? ==>
          && 1 <= x.curmsg.value <= |At(s.taken, x.channel)|
          && forall i :: 0 <= i < |x.delivered| ==> x.delivered[i].id < x.curmsg.value)
    && (x.phase.Writing? && x.curmsg.Some? ==> BodyPosted(x.view, Posted(s, x.channel, x.curmsg.value), true))
  }

  ghost predicate Grown(s: World, t: World) {
    forall b :: At(s.sent, b) <= At(t.sent, b) && At(s.taken, b) <= At(t.taken, b) && BucketOk(t, b) && BucketOk(s, b)
  }

  lemma PostedStays(s: World, t: World, b: string, id: nat)
    requires At(s.sent, b) <= At(t.sent, b) && 1 <= id <= |At(s.sent, b)|
    ensures Posted(t, b, id) == Posted(s, b, id)
  {
  }

  lemma TakenAtMostSent(s: World, b: string)
    requires BucketOk(s, b)
    ensures |At(s.taken, b)| <= |At(s.sent, b)|
    ensures At(s.channels, b) != [] ==> At(s.channels, b)[0] == |At(s.taken, b)| + 1
  {
    var all := At(s.taken, b) + At(s.channels, b);
    assert |all| == |At(s.sent, b)|;
    assert At(s.channels, b) != [] ==> all[|At(s.taken, b)|] == At(s.channels, b)[0];
  }

  /** Steps of others leave it so. */
  lemma DeliveredStays(s: World, t: World, x: Session, untorn: bool)
    requires DeliveredOk(s, x, untorn) && Grown(s, t)
    ensures DeliveredOk(t, x, untorn)
  {
    hide BodyPosted, BucketOk, At, Posted;
    var b := x.channel;
    assert At(s.sent, b) <= At(t.sent, b) && BucketOk(s, b) && BucketOk(t, b);
    TakenAtMostSent(s, b);
    TakenAtMostSent(t, b);
    forall i | 0 <= i < |x.delivered|
      ensures JobPosted(t, b, x.delivered[i], untorn)
    {
      assert JobPosted(s, b, x.delivered[i], untorn);
      PostedStays(s, t, b, x.delivered[i].id);
    }
    if (x.phase.Handling? || x.phase.Writing?) && x.curmsg.Some? {
      PostedStays(s, t, b, x.curmsg.value);
    }
  }

  lemma DeliveredByLine(s: World, x: Session, line: string, writes: bool, made: bool, untorn: bool)
    requires SessionOk(x) && x.phase.Reading? && OnLine(x, line, writes, made).Some? && DeliveredOk(s, x, untorn)
    ensures DeliveredOk(s, OnLine(x, line, writes, made).value, untorn)
  {
    LineKeeps(x, line, writes, made);
    hide OnLine, JobPosted, BodyPosted;
  }

  lemma DeliveredByTake(s: World, t: World, x: Session, untorn: bool)
    requires SessionOk(x) && x.phase.Selecting? && DeliveredOk(t, x, untorn) && DeliveredOk(s, x, untorn)
    requires BucketOk(s, x.channel) && At(s.channels, x.channel) != []
    requires |At(t.taken, x.channel)| == |At(s.taken, x.channel)| + 1
    ensures DeliveredOk(t, OnTake(x, At(s.channels, x.channel)[0]), untorn)
  {
    TakenAtMostSent(s, x.channel);
    hide BodyPosted, Posted, BucketOk, At;
    forall i | 0 <= i < |x.delivered|
      ensures x.delivered[i].id <= |At(s.taken, x.channel)|
    {
      assert JobPosted(s, x.channel, x.delivered[i], untorn);
    }
  }

  lemma DeliveredByView(s: World, x: Session, untorn: bool, commits: nat)
    requires SessionOk(x) && x.phase.Handling? && x.curmsg.Some? && DeliveredOk(s, x, untorn)
    requires BucketOk(s, x.channel)
    ensures DeliveredOk(s, OnLookup(x, StoredBody(s.store, x.channel, x.curmsg.value), commits), untorn)
  {
    TakenAtMostSent(s, x.channel);
    StoredOnceCommitted(s, x.channel, x.curmsg.value);
    hide JobPosted, BucketOk, At, StoredBody;
  }

  lemma DeliveredByBody(s: World, x: Session, body: string, fault: Fault, untorn: bool)
    requires SessionOk(x) && x.phase.Writing? && x.curmsg.Some? && DeliveredOk(s, x, untorn)
    requires BucketOk(s, x.channel) && |body| == |x.view| && (untorn ==> body == x.view)
    ensures DeliveredOk(s, OnBody(x, x.curmsg.value, body, fault), untorn)
  {
    TakenAtMostSent(s, x.channel);
    assert JobPosted(s, x.channel, Job(x.curmsg.value, body), untorn);
    hide BucketOk, At, Posted, Frame, Header, JobPosted, BodyPosted;
  }

  lemma Grows(s: World, e: Event)
    requires Inv(s)
    ensures Grown(s, Step(s, e))
  {
    QueuesKept(s, e);
    hide Step, BucketOk, At;
    forall b
      ensures At(s.sent, b) <= At(Step(s, e).sent, b) && At(s.taken, b) <= At(Step(s, e).taken, b)
    {
      HistoryGrows(s, e, b);
    }
  }

  lemma TakesOne(s: World, w: nat)
    requires Enabled(s, Take(w))
    ensures var b := s.sessions[w].channel;
      At(s.channels, b) != [] && |At(Step(s, Take(w)).taken, b)| == |At(s.taken, b)| + 1
  {
  }

  lemma DeliveredByMove(s: World, e: Event, w: nat, untorn: bool)
    requires Inv(s) && w in s.sessions && DeliveredOk(s, s.sessions[w], untorn)
    requires untorn && e.Write? && Enabled(s, e) ==> e.slice == Some(s.sessions[e.w].view)
    ensures w in Step(s, e).sessions && DeliveredOk(Step(s, e), Step(s, e).sessions[w], untorn)
  {
    hide Step, DeliveredOk, Grown;
    var x, t := s.sessions[w], Step(s, e);
    var m := MoveOf(s, e, w);
    InvSession(s, w);
    Grows(s, e);
    DeliveredStays(s, t, x, untorn);
    BucketsOk(s, t, x.channel);
    hide Inv, BucketOk, SessionOk, OnLine, OnBody, OnLookup, OnTake, StoredBody, At;
    match m {
      case Stay =>
      case ByLine(line, writes, made) =>
        DeliveredByLine(t, x, line, writes, made, untorn);
      case ByLeave =>
        DeliveredByLeave(t, x, untorn);
      case ByTake(id) =>
        TakesOne(s, w);
        DeliveredByTake(s, t, x, untorn);
      case ByView(body, commits) =>
        DeliveredByView(s, x, untorn, commits);
        DeliveredStays(s, t, OnLookup(x, body, commits), untorn);
      case ByBody(id, body, fault) =>
        WritesTheView(s, e, body);
        DeliveredByBody(t, x, body, fault, untorn);
    }
  }

  lemma BucketsOk(s: World, t: World, b: string)
    requires Inv(s) && Grown(s, t)
    ensures BucketOk(s, b) && BucketOk(t, b)
  {
  }

  lemma WritesTheView(s: World, e: Event, body: string)
    requires e.Write? && Enabled(s, e) && e.slice == Some(body)
    ensures |body| == |s.sessions[e.w].view|
  {
  }

  lemma DeliveredByLeave(s: World, x: Session, untorn: bool)
    requires DeliveredOk(s, x, untorn)
    ensures DeliveredOk(s, Leave(x), untorn)
  {
    hide JobPosted, BodyPosted;
  }

  lemma {:induction false} DeliveredHolds(events: seq<Event>, w: nat, untorn: bool)
    requires w in Run(events).sessions && (untorn ==> Untorn(events))
    ensures DeliveredOk(Run(events), Run(events).sessions[w], untorn)
  {
    if events != [] {
      hide Step, DeliveredOk, NewSession, Inv;
      var before, e := events[..|events| - 1], events[|events| - 1];
      InvHolds(before);
      if w in Run(before).sessions {
        DeliveredHolds(before, w, untorn);
        DeliveredByMove(Run(before), e, w, untorn);
      } else {
        Arrival(Run(before), e, w);
        FreshDelivered(Run(events), untorn);
      }
    }
  }

  lemma FreshDelivered(s: World, untorn: bool)
    ensures DeliveredOk(s, NewSession(), untorn)
  {
  }

  /**
   A worker that reads its connection parses jobs that were posted to its bucket: with ids in
   strictly increasing order, and each with a body that is empty or as long as the posted one,
   and is the posted one wherever the writes found what their lookups had found.
   */
  lemma WorkerReadsPosted(events: seq<Event>, w: nat) returns (jobs: seq<Job>)
    requires w in Run(events).sessions && Live(Run(events).sessions[w])
    requires forall job :: job in Run(events).sessions[w].delivered ==> job.id <= MAX_INT64 && |job.body| <= MAX_INT64
    ensures var (s, x) := (Run(events), Run(events).sessions[w]);
      && Handshake(x.state) <= x.out && ReadAll(x.out[|Handshake(x.state)|..]) == Some(jobs)
      && (forall i, j :: 0 <= i < j < |jobs| ==> jobs[i].id < jobs[j].id)
      && (forall i :: 0 <= i < |jobs| ==> JobPosted(s, x.channel, jobs[i], Untorn(events)))
  {
    WorkerReadsJobs(events, w);
    DeliveredHolds(events, w, Untorn(events));
    jobs := Run(events).sessions[w].delivered;
    hide Run, Handshake, JobPosted, Untorn;
  }
}

/**
 limitedChunkedReader of pub/chunked.js: at most four files are read at a time, the others
 wait in a queue. Every callback of the browser is one atomic step.
 */
module UploadPool {
  import opened GoStrings
  import opened Upload

  /** var limit = 4 */
  const LIMIT: nat := 4

  /** A submitted file, numbered by its submission, with the bytes not yet read. */
  datatype Job = Job(id: nat, left: nat, chunk: nat)

  /**
   The page's variables: the worker count, the queue, and the readers that were started and
   have not called their done handler. The rest is history: how many files were submitted,
   and the numbers of those started and finished, in order. A reader whose read failed stays
   among `active` for ever, because nothing calls its done handler.
   */
  datatype Pool = Pool(workers: int, queue: seq<Job>, active: seq<Job>, submitted: nat,
                       started: seq<nat>, finished: seq<nat>, broken: set<nat>)

  const EMPTY := Pool(0, [], [], 0, [], [], {})

  datatype Event =
    | Submit(size: nat, chunk: nat)        // limitedChunkedReader is called
    | Answered(i: nat, ok: bool)           // the i-th active reader's slice was posted and answered
    | ReadFails(i: nat)                    // its FileReader reports an error

  predicate Enabled(p: Pool, e: Event) {
    match e
    case Submit(_, chunk) => chunk >= 1
    case Answered(i, _) => i < |p.active| && p.active[i].id !in p.broken
    case ReadFails(i) => i < |p.active| && p.active[i].id !in p.broken
  }

  /** next(): start what waits, or give up the worker. */
  function Next(p: Pool, i: nat): Pool
    requires i < |p.active|
  {
    var rest := Without(p.active, i);
    var q := p.(finished := p.finished + [p.active[i].id]);
    if p.queue == [] then q.(workers := p.workers - 1, active := rest)
    else q.(queue := p.queue[1..], active := rest + [p.queue[0]], started := p.started + [p.queue[0].id])
  }

  function Step(p: Pool, e: Event): Pool {
    if !Enabled(p, e) then p
    else
      match e
      case Submit(size, chunk) =>
        var job := Job(p.submitted, size, chunk);
        var q := p.(submitted := p.submitted + 1);
        if p.workers == LIMIT then q.(queue := p.queue + [job])
        else q.(workers := p.workers + 1, active := p.active + [job], started := p.started + [job.id])
      case Answered(i, ok) =>
        var job := p.active[i];
        if !ok || job.left <= job.chunk then Next(p, i)
        else p.(active := p.active[i := job.(left := job.left - job.chunk)])
      case ReadFails(i) => p.(broken := p.broken + {p.active[i].id})
  }

  function Run(events: seq<Event>): Pool {
    if events == [] then EMPTY else Step(Run(events[..|events| - 1]), events[|events| - 1])
  }

  // ---------------------------------------------------------------------- invariant

  function Ids(jobs: seq<Job>): (ids: seq<nat>)
    ensures |ids| == |jobs| && forall i :: 0 <= i < |jobs| ==> ids[i] == jobs[i].id
  {
    seq(|jobs|, i requires 0 <= i < |jobs| => jobs[i].id)
  }

  function FirstIds(n: nat): (s: seq<nat>)
    ensures |s| == n && forall i :: 0 <= i < n ==> s[i] == i
  {
    seq(n, i => i)
  }

  ghost predicate Inv(p: Pool) {
    && p.workers == |p.active| <= LIMIT
    && (p.queue != [] ==> p.workers == LIMIT)
    && p.started + Ids(p.queue) == FirstIds(p.submitted)
    && multiset(p.started) == multiset(p.finished) + multiset(Ids(p.active))
    && (forall job :: job in p.queue ==> job.chunk >= 1)
    && (forall job :: job in p.active ==> job.chunk >= 1)
  }

  lemma FirstIdsSnoc(n: nat)
    ensures FirstIds(n) + [n] == FirstIds(n + 1)
  {
  }

  lemma IdsConcat(a: seq<Job>, b: seq<Job>)
    ensures Ids(a + b) == Ids(a) + Ids(b)
  {
  }

  lemma SubmitKeeps(p: Pool, size: nat, chunk: nat)
    requires Inv(p) && chunk >= 1
    ensures Inv(Step(p, Submit(size, chunk)))
  {
    hide FirstIds, Ids;
    var job := Job(p.submitted, size, chunk);
    FirstIdsSnoc(p.submitted);
    IdOf(job);
    if p.workers == LIMIT {
      IdsConcat(p.queue, [job]);
      ConcatAssoc(p.started, Ids(p.queue), [p.submitted]);
    } else {
      IdsConcat(p.active, [job]);
      NoIds(p.started);
      NoIds(p.started + [job.id]);
    }
  }

  lemma IdOf(job: Job)
    ensures Ids([job]) == [job.id]
  {
  }

  lemma NoIds(s: seq<nat>)
    ensures s + Ids([]) == s
  {
  }

  function Without(jobs: seq<Job>, i: nat): (rest: seq<Job>)
    requires i < |jobs|
    ensures |rest| == |jobs| - 1 && forall job :: job in rest ==> job in jobs
  {
    jobs[..i] + jobs[i + 1..]
  }

  lemma IdsWithout(jobs: seq<Job>, i: nat)
    requires i < |jobs|
    ensures multiset(Ids(jobs)) == multiset(Ids(Without(jobs, i))) + multiset([jobs[i].id])
  {
    hide Ids;
    assert jobs == jobs[..i] + ([jobs[i]] + jobs[i + 1..]);
    IdsConcat(jobs[..i], [jobs[i]] + jobs[i + 1..]);
    IdsConcat([jobs[i]], jobs[i + 1..]);
    IdsConcat(jobs[..i], jobs[i + 1..]);
    IdOf(jobs[i]);
  }

  lemma Balance(a: multiset<nat>, b: multiset<nat>, c: multiset<nat>, x: multiset<nat>, y: multiset<nat>)
    requires a == b + (c + x)
    ensures a == (b + x) + c
    ensures a + y == (b + x) + (c + y)
  {
  }

  lemma NextKeeps(p: Pool, i: nat)
    requires Inv(p) && i < |p.active|
    ensures Inv(Next(p, i))
  {
    hide FirstIds, Ids, Without;
    var rest, done := Without(p.active, i), p.active[i];
    IdsWithout(p.active, i);
    if p.queue == [] {
      Balance(multiset(p.started), multiset(p.finished), multiset(Ids(rest)), multiset([done.id]), multiset{});
    } else {
      var job := p.queue[0];
      assert p.queue == [job] + p.queue[1..];
      IdsConcat([job], p.queue[1..]);
      IdsConcat(rest, [job]);
      IdOf(job);
      ConcatAssoc(p.started, [job.id], Ids(p.queue[1..]));
      Balance(multiset(p.started), multiset(p.finished), multiset(Ids(rest)), multiset([done.id]), multiset([job.id]));
    }
  }

  lemma StepKeeps(p: Pool, e: Event)
    requires Inv(p)
    ensures Inv(Step(p, e))
  {
    if Enabled(p, e) {
      match e {
        case Submit(size, chunk) => SubmitKeeps(p, size, chunk);
        case Answered(i, ok) =>
          var job := p.active[i];
          if !ok || job.left <= job.chunk {
            NextKeeps(p, i);
          } else {
            assert Ids(p.active[i := job.(left := job.left - job.chunk)]) == Ids(p.active);
          }
        case ReadFails(i) =>
      }
    }
  }

  lemma {:induction false} InvHolds(events: seq<Event>)
    ensures Inv(Run(events))
  {
    if events == [] {
      assert [] + Ids([]) == FirstIds(0);
    } else {
      hide Step;
      InvHolds(events[..|events| - 1]);
      StepKeeps(Run(events[..|events| - 1]), events[|events| - 1]);
    }
  }

  /**
   In every reachable state: a worker for each active reader and never more than four; files
   wait only while all four are busy; the files started are the first ones submitted, each
   once and in order; and every submitted file waits, is active or is finished.
   */
  lemma PoolGuarantee(events: seq<Event>)
    ensures var p := Run(events);
      && p.workers == |p.active| <= 4
      && (p.queue != [] ==> p.workers == 4)
      && p.started == FirstIds(|p.started|)
      && p.submitted == |p.queue| + |p.active| + |p.finished|
      && multiset(p.started) == multiset(p.finished) + multiset(Ids(p.active))
  {
    InvHolds(events);
    var p := Run(events);
    hide Run;
    assert |p.started + Ids(p.queue)| == p.submitted;
    assert |multiset(p.started)| == |p.started| && |multiset(p.finished)| == |p.finished|;
    assert |multiset(Ids(p.active))| == |p.active|;
    assert (p.started + Ids(p.queue))[..|p.started|] == p.started;
    assert FirstIds(p.submitted)[..|p.started|] == FirstIds(|p.started|);
  }

  /** No file is finished twice. */
  lemma FinishedOnce(events: seq<Event>, id: nat)
    ensures multiset(Run(events).finished)[id] <= 1
  {
    PoolGuarantee(events);
    var p := Run(events);
    hide Run;
    OnceInFirstIds(|p.started|, id);
    assert multiset(p.started)[id] == multiset(p.finished)[id] + multiset(Ids(p.active))[id];
  }

  lemma {:induction false} OnceInFirstIds(n: nat, id: nat)
    ensures multiset(FirstIds(n))[id] == if id < n then 1 else 0
  {
    if n > 0 {
      var last: nat := n - 1;
      OnceInFirstIds(last, id);
      FirstIdsSnoc(last);
      assert multiset(FirstIds(n)) == multiset(FirstIds(n - 1)) + multiset([last]);
    }
  }

  // ------------------------------------------------------------------- draining

  /** Bytes still to be read, and one more for each file. */
  function Load(jobs: seq<Job>): nat {
    if jobs == [] then 0 else jobs[0].left + 1 + Load(jobs[1..])
  }

  function Outstanding(p: Pool): nat {
    Load(p.active) + Load(p.queue)
  }

  lemma {:induction false} LoadConcat(a: seq<Job>, b: seq<Job>)
    ensures Load(a + b) == Load(a) + Load(b)
  {
    if a == [] {
      assert a + b == b;
    } else {
      LoadConcat(a[1..], b);
      assert (a + b)[1..] == a[1..] + b;
    }
  }

  lemma SplitAt<T>(s: seq<T>, i: nat)
    requires i < |s|
    ensures s == s[..i] + ([s[i]] + s[i + 1..]) && ([s[i]] + s[i + 1..])[1..] == s[i + 1..]
  {
  }

  lemma LoadOfCons(job: Job, jobs: seq<Job>)
    ensures Load([job] + jobs) == job.left + 1 + Load(jobs)
  {
    assert ([job] + jobs)[1..] == jobs;
  }

  lemma LoadAt(jobs: seq<Job>, i: nat)
    requires i < |jobs|
    ensures Load(jobs) == Load(jobs[..i]) + jobs[i].left + 1 + Load(jobs[i + 1..])
  {
    hide Load;
    SplitAt(jobs, i);
    LoadConcat(jobs[..i], [jobs[i]] + jobs[i + 1..]);
    LoadOfCons(jobs[i], jobs[i + 1..]);
  }

  /** Every answer makes progress. */
  lemma AnswerProgresses(p: Pool, i: nat, ok: bool)
    requires Inv(p) && Enabled(p, Answered(i, ok))
    ensures Outstanding(Step(p, Answered(i, ok))) < Outstanding(p)
  {
    var job := p.active[i];
    LoadAt(p.active, i);
    assert job in p.active;
    if !ok || job.left <= job.chunk {
      var rest := Without(p.active, i);
      LoadConcat(p.active[..i], p.active[i + 1..]);
      if p.queue != [] {
        LoadConcat(rest, [p.queue[0]]);
        assert Load([p.queue[0]]) == p.queue[0].left + 1 + Load([]);
      }
    } else {
      var next := p.active[i := job.(left := job.left - job.chunk)];
      LoadAt(next, i);
      assert next[..i] == p.active[..i] && next[i + 1..] == p.active[i + 1..];
    }
  }

  /** A slice that is refused finishes its file at once, whatever is left of it. */
  lemma RefusedFinishes(p: Pool, i: nat)
    requires Enabled(p, Answered(i, false))
    ensures var q := Step(p, Answered(i, false));
      && q.finished == p.finished + [p.active[i].id] && q.submitted == p.submitted && q.broken == p.broken
      && (if p.queue == [] then q.active == p.active[..i] + p.active[i + 1..] && q.workers == p.workers - 1
          else q.active == p.active[..i] + p.active[i + 1..] + [p.queue[0]] && q.workers == p.workers)
  {
  }

  /** The slices of a file that are still to be answered; an empty file has one. */
  function SlicesLeft(job: Job): nat {
    if job.left == 0 || job.chunk == 0 then 1 else ChunkCount(job.left, job.chunk)
  }

  lemma OneSliceLess(left: nat, chunk: nat)
    requires chunk > 0 && left > 0
    ensures ChunkCount(left, chunk) == 1 <==> left <= chunk
    ensures left > chunk ==> ChunkCount(left, chunk) == ChunkCount(left - chunk, chunk) + 1
    ensures ChunkCount(left, chunk) >= 1
  {
    if left <= chunk {
      DivUnique(left + chunk - 1, chunk, 1, left - 1);
    } else {
      DivStep(left - 1, chunk);
      OneAtLeast(left - 1, chunk);
    }
  }

  lemma OneAtLeast(a: nat, c: nat)
    requires 0 < c <= a
    ensures a / c >= 1
  {
  }

  /** The same reader's slices, answered OK one after another. */
  function Answering(p: Pool, i: nat, n: nat): Pool {
    if n == 0 then p else Step(Answering(p, i, n - 1), Answered(i, true))
  }

  /** A file with n slices less to read. */
  function Shortened(job: Job, n: nat): (r: Job)
    ensures r.id == job.id && r.chunk == job.chunk
  {
    if n == 0 then job
    else
      var before := Shortened(job, n - 1);
      before.(left := if before.left > job.chunk then before.left - job.chunk else 0)
  }

  lemma {:induction false} ShortenedSlices(job: Job, n: nat)
    requires job.chunk > 0 && n < SlicesLeft(job)
    ensures SlicesLeft(Shortened(job, n)) == SlicesLeft(job) - n
    ensures n > 0 ==> Shortened(job, n - 1).left > job.chunk
  {
    if n > 0 {
      ShortenedSlices(job, n - 1);
      var before := Shortened(job, n - 1);
      if before.left > 0 {
        OneSliceLess(before.left, job.chunk);
      }
      hide ChunkCount, Shortened;
      assert before.left > job.chunk;
    }
  }

  lemma UpdateTwice<T>(s: seq<T>, i: nat, x: T, y: T)
    requires i < |s|
    ensures s[i := x][i := y] == s[i := y] && s[i := s[i]] == s && s[i := x][i] == x
  {
  }

  /** After n answers OK, fewer than it has slices, a file has that many slices less and nothing else changed. */
  lemma {:induction false} SlicesAnswered(p: Pool, i: nat, n: nat)
    requires Enabled(p, Answered(i, true)) && p.active[i].chunk > 0 && n < SlicesLeft(p.active[i])
    ensures Answering(p, i, n) == p.(active := p.active[i := Shortened(p.active[i], n)])
    ensures SlicesLeft(Shortened(p.active[i], n)) == SlicesLeft(p.active[i]) - n
  {
    var job := p.active[i];
    ShortenedSlices(job, n);
    hide SlicesLeft;
    UpdateTwice(p.active, i, job, job);
    if n > 0 {
      ShortenedSlices(job, n - 1);
      SlicesAnswered(p, i, n - 1);
      UpdateTwice(p.active, i, Shortened(job, n - 1), Shortened(job, n));
    }
  }

  /** A file answered OK throughout is finished by exactly as many answers as it has slices. */
  lemma FinishedBySlices(p: Pool, i: nat, n: nat)
    requires Enabled(p, Answered(i, true)) && p.active[i].chunk > 0 && n == SlicesLeft(p.active[i])
    ensures n >= 1 && Answering(p, i, n - 1).finished == p.finished
    ensures Answering(p, i, n).finished == p.finished + [p.active[i].id]
  {
    var job := p.active[i];
    AtLeastOne(job);
    hide Step, SlicesLeft, Shortened, Next;
    SlicesAnswered(p, i, n - 1);
    LastSlice(Answering(p, i, n - 1), i);
  }

  lemma AtLeastOne(job: Job)
    ensures SlicesLeft(job) >= 1
  {
    if job.left > 0 && job.chunk > 0 {
      OneSliceLess(job.left, job.chunk);
    }
  }

  lemma LastSlice(p: Pool, i: nat)
    requires i < |p.active| && p.active[i].chunk > 0 && SlicesLeft(p.active[i]) == 1
    requires Enabled(p, Answered(i, true))
    ensures Step(p, Answered(i, true)).finished == p.finished + [p.active[i].id]
  {
    var job := p.active[i];
    if job.left > 0 {
      OneSliceLess(job.left, job.chunk);
    }
  }

  /** A read error leaves the reader where it is, for ever without an answer. */
  lemma BrokenStays(p: Pool, i: nat)
    requires Enabled(p, ReadFails(i))
    ensures Step(p, ReadFails(i)) == p.(broken := p.broken + {p.active[i].id})
    ensures forall ok :: !Enabled(Step(p, ReadFails(i)), Answered(i, ok))
  {
  }

  /** The answers to one active reader after another, as long as there is one. */
  ghost predicate Answers(p: Pool, events: seq<Event>)
    decreases |events|
  {
    events != [] ==> events[0].Answered? && Enabled(p, events[0]) && Answers(Step(p, events[0]), events[1..])
  }

  function After(p: Pool, events: seq<Event>): Pool
    decreases |events|
  {
    if events == [] then p else After(Step(p, events[0]), events[1..])
  }

  /**
   The pool drains: with no read failing, at most as many answers can follow as there are
   bytes and files outstanding, and when no further answer is possible nothing is active or
   waiting.
   */
  lemma {:induction false} PoolDrains(p: Pool, events: seq<Event>)
    requires Inv(p) && p.broken == {} && Answers(p, events)
    ensures var q := After(p, events);
      && |events| + Outstanding(q) <= Outstanding(p)
      && Inv(q) && q.broken == {}
      && ((forall i, ok :: !Enabled(q, Answered(i, ok))) ==> q.active == [] && q.queue == [])
    decreases |events|
  {
    if events == [] {
      if p.active != [] {
        assert Enabled(p, Answered(0, true));
      }
    } else {
      var e := events[0];
      AnswerProgresses(p, e.i, e.ok);
      StepKeeps(p, e);
      hide Inv, Outstanding;
      PoolDrains(Step(p, e), events[1..]);
    }
  }

  // --------------------------------------------------------------------- the page

  /** The script's module-level variables, with the readers the browser runs for it. */
  class Page {
    var workers: int
    var queue: seq<Job>
    var active: seq<Job>
    ghost var submitted: nat
    ghost var started: seq<nat>
    ghost var finished: seq<nat>
    ghost var broken: set<nat>

    ghost function Now(): Pool
      reads this
    {
      Pool(workers, queue, active, submitted, started, finished, broken)
    }

    constructor ()
      ensures Now() == EMPTY
    {
      workers, queue, active, submitted, started, finished, broken := 0, [], [], 0, [], [], {};
    }

    method LimitedChunkedReader(size: nat, chunkSize: nat, number: nat)
      requires chunkSize >= 1 && number == submitted
      modifies this
      ensures Now() == Step(old(Now()), Submit(size, chunkSize))
    {
      var job := Job(number, size, chunkSize);
      submitted := submitted + 1;
      if workers == LIMIT {
        queue := queue + [job];
        return;
      }
      workers := workers + 1;
      active := active + [job];
      started := started + [number];
    }

    /** next(), the done handler of the i-th active reader. */
    method NextFile(i: nat)
      requires i < |active|
      modifies this
      ensures Now() == Next(old(Now()), i)
    {
      finished := finished + [active[i].id];
      active := active[..i] + active[i + 1..];
      if |queue| == 0 {
        workers := workers - 1;
        return;
      }
      var job := queue[0];
      queue := queue[1..];
      active := active + [job];
      started := started + [job.id];
    }

    /** The callback of readEventHandler, once the server has answered for a slice. */
    method OnAnswer(i: nat, ok: bool)
      requires Enabled(Now(), Answered(i, ok))
      modifies this
      ensures Now() == Step(old(Now()), Answered(i, ok))
    {
      var job := active[i];
      if !ok {
        NextFile(i);
        return;
      }
      if job.left <= job.chunk {
        NextFile(i);
        return;
      }
      active := active[i := job.(left := job.left - job.chunk)];
    }
  }
}

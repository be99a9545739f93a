/**
 The bytes on a worker connection: "JOB <id> <length>" lines followed by the body
 (queue/worker.go), and the eight-byte little-endian ids of queue/queue.go.
 */
module JobFraming {
  import opened GoStrings

  datatype Job = Job(id: nat, body: string)

  /** fmt.Sprintf("JOB %d %d\r\n", id, len(v)) with the id read back as an int64. */
  function Header(id: nat, size: nat): string {
    "JOB " + Itoa(Wrap64(id)) + " " + Itoa(size) + "\r\n"
  }

  function Frame(job: Job): string {
    Header(job.id, |job.body|) + job.body
  }

  function Frames(jobs: seq<Job>): string {
    if jobs == [] then "" else Frame(jobs[0]) + Frames(jobs[1..])
  }

  /** A job and the bytes that follow it on the wire. */
  datatype Read = Read(job: Job, rest: string)

  /**
   A reader of the protocol: take a line, read the id and the length from it, take that many
   bytes. None when the stream does not begin with a complete frame.
   */
  function ReadFrame(wire: string): (r: Option<Read>)
    ensures r.Some? ==> |r.value.rest| < |wire|
  {
    var nl := IndexByte(wire, '\n');
    if nl < 0 then None
    else
      var toks := Split(TrimSuffix(wire[..nl], "\r"), ' ');
      if |toks| != 3 || toks[0] != "JOB" then None
      else
        var id, size, rest := ParseInt(toks[1]), ParseInt(toks[2]), wire[nl + 1..];
        if id.None? || size.None? || id.value < 0 || !(0 <= size.value <= |rest|) then None
        else Some(Read(Job(id.value, rest[..size.value]), rest[size.value..]))
  }

  function ReadAll(wire: string): (jobs: Option<seq<Job>>)
    decreases |wire|
  {
    if wire == "" then Some([])
    else
      var first := ReadFrame(wire);
      if first.None? then None
      else
        var more := ReadAll(first.value.rest);
        if more.None? then None else Some([first.value.job] + more.value)
  }

  /** The two numbers of a header line are what a reader finds in it. */
  lemma HeaderTokens(id: nat, size: nat)
    requires id <= MAX_INT64
    ensures var line := "JOB " + Itoa(id) + " " + Itoa(size);
            && Split(line, ' ') == ["JOB", Itoa(id), Itoa(size)]
            && forall i :: 0 <= i < |line| ==> line[i] != '\r' && line[i] != '\n'
  {
    hide Utoa, Split;
    UtoaIsDigits(id);
    UtoaIsDigits(size);
    var a, b := Utoa(id), Utoa(size);
    assert "JOB " + a + " " + b == "JOB" + [' '] + (a + [' '] + b);
    SplitFirst("JOB", ' ', a + [' '] + b);
    SplitFirst(a, ' ', b);
    SplitLast(b, ' ');
  }

  lemma CutLine(line: string, rest: string)
    requires forall i :: 0 <= i < |line| ==> line[i] != '\r' && line[i] != '\n'
    ensures var wire := line + "\r\n" + rest;
            && IndexByte(wire, '\n') == |line| + 1
            && TrimSuffix(wire[..|line| + 1], "\r") == line
            && wire[|line| + 2..] == rest
  {
    var wire, full := line + "\r\n" + rest, line + "\r";
    assert wire == full + ['\n'] + rest;
    CutAt(full, '\n', rest);
    assert full[|line|..] == "\r" && full[..|line|] == line;
  }

  /** One frame is read back exactly, and nothing of what follows is touched, whatever the body holds. */
  lemma ReadsFrame(job: Job, after: string)
    requires job.id <= MAX_INT64 && |job.body| <= MAX_INT64
    ensures ReadFrame(Frame(job) + after) == Some(Read(job, after))
  {
    hide IndexByte, TrimSuffix, Split, Utoa, ParseInt;
    var line := "JOB " + Itoa(job.id) + " " + Itoa(|job.body|);
    var rest := job.body + after;
    HeaderTokens(job.id, |job.body|);
    CutLine(line, rest);
    ParseIntOfItoa(job.id);
    ParseIntOfItoa(|job.body|);
    FrameIs(job, after);
    CutBody(job.body, after);
  }

  lemma FrameIs(job: Job, after: string)
    requires job.id <= MAX_INT64
    ensures Frame(job) + after
         == ("JOB " + Itoa(job.id) + " " + Itoa(|job.body|)) + "\r\n" + (job.body + after)
  {
    ConcatAssoc(Header(job.id, |job.body|), job.body, after);
  }

  lemma CutBody(body: string, after: string)
    ensures (body + after)[..|body|] == body && (body + after)[|body|..] == after
  {
  }

  /** A reader recovers exactly the sequence of jobs sent, bodies with CRLF in them included. */
  lemma {:induction false} FramesRoundTrip(jobs: seq<Job>)
    requires forall i :: 0 <= i < |jobs| ==> jobs[i].id <= MAX_INT64 && |jobs[i].body| <= MAX_INT64
    ensures ReadAll(Frames(jobs)) == Some(jobs)
  {
    hide ReadFrame, Frame;
    if jobs != [] {
      var rest := Frames(jobs[1..]);
      ReadsFrame(jobs[0], rest);
      FramesRoundTrip(jobs[1..]);
      FrameNotEmpty(jobs[0]);
      assert jobs == [jobs[0]] + jobs[1..];
    }
  }

  lemma FrameNotEmpty(job: Job)
    ensures Frame(job) != ""
  {
  }

  lemma {:induction false} FramesSnoc(jobs: seq<Job>, job: Job)
    ensures Frames(jobs + [job]) == Frames(jobs) + Frame(job)
  {
    hide Frame;
    if jobs == [] {
      assert Frames([job]) == Frame(job) + Frames([]);
      assert Frame(job) + "" == Frame(job);
    } else {
      FramesSnoc(jobs[1..], job);
      assert (jobs + [job])[1..] == jobs[1..] + [job];
      ConcatAssoc(Frame(jobs[0]), Frames(jobs[1..]), Frame(job));
    }
  }

  // ------------------------------------------------------------- little-endian ids

  type Byte = n: nat | n < 256

  /** binary.LittleEndian.PutUint64 into `k` bytes (eight in the source). */
  function PutUint(n: nat, k: nat): (b: seq<Byte>)
    ensures |b| == k
  {
    if k == 0 then [] else [n % 256] + PutUint(n / 256, k - 1)
  }

  /** binary.LittleEndian.Uint64 */
  function Uint(b: seq<Byte>): nat {
    if b == [] then 0 else b[0] + 256 * Uint(b[1..])
  }

  function Pow256(k: nat): nat {
    if k == 0 then 1 else 256 * Pow256(k - 1)
  }

  lemma {:induction false} UintOfPutUint(n: nat, k: nat)
    requires n < Pow256(k)
    ensures Uint(PutUint(n, k)) == n
  {
    if k > 0 {
      UintOfPutUint(n / 256, k - 1);
      assert PutUint(n, k)[1..] == PutUint(n / 256, k - 1);
    }
  }

  lemma {:induction false} PutUintOfUint(b: seq<Byte>)
    ensures PutUint(Uint(b), |b|) == b && Uint(b) < Pow256(|b|)
  {
    if b != [] {
      PutUintOfUint(b[1..]);
      assert b == [b[0]] + b[1..];
    }
  }

  /** The least significant byte comes first: byte i counts 256 to the power of i. */
  lemma {:induction false} ByteWeighs(b: seq<Byte>, i: nat)
    requires i < |b|
    ensures Uint(b) == Uint(b[i := 0]) + b[i] * Pow256(i)
  {
    if i == 0 {
      assert b[0 := 0][1..] == b[1..];
    } else {
      ByteWeighs(b[1..], i - 1);
      assert b[i := 0][1..] == b[1..][i - 1 := 0];
      TimesShift(b[i], Pow256(i - 1));
    }
  }

  lemma TimesShift(x: nat, y: nat)
    ensures 256 * (x * y) == x * (256 * y)
  {
  }

  /** Every uint64 id survives the trip through the bucket key, and every key names one id. */
  lemma IdsRoundTrip(id: nat, key: seq<Byte>)
    requires id < 0x1_0000_0000_0000_0000 && |key| == 8
    ensures Uint(PutUint(id, 8)) == id
    ensures PutUint(Uint(key), 8) == key && Uint(key) < 0x1_0000_0000_0000_0000
  {
    Pow256Of8();
    UintOfPutUint(id, 8);
    PutUintOfUint(key);
  }

  lemma Pow256Of8()
    ensures Pow256(8) == 0x1_0000_0000_0000_0000
  {
    assert Pow256(4) == 0x1_0000_0000;
  }
}

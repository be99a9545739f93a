/**
 The main loop of contrib/deltajournal: read what is new, mail it, and move the cursor only
 after the mail went out. One process run over an append-only journal, with entries arriving
 between any two accesses to it.
 */
module JournalMailer {
  import opened GoStrings
  import opened JournalReader
  import opened JournalLines

  /**
   History of one move of the cursor: where the cursor was, the first entry read, where the
   cursor went (the tail HasLog saw) and where the walk back started. Positions count entries.
   */
  datatype Pass = Pass(from: nat, read: nat, tail: nat, end: nat, lines: seq<string>)

  /** The journal, main's cursor, the mails that were accepted and whether the loop has ended. */
  datatype Mailer = Mailer(log: seq<Entry>, cursor: string, mails: seq<string>, over: bool, passes: seq<Pass>)

  const START := Mailer([], "", [], false, [])

  /**
   One turn of the loop as the outside shapes it: the entries logged before HasLog reads the
   tail and between that and the second SeekTail, what ReadLines meets, whether the mail is
   accepted and whether a signal is waiting at the end.
   */
  datatype Round = Round(before: seq<Entry>, between: seq<Entry>, env: Env, mailed: bool, quit: bool)

  function Heard(m: Mailer, r: Round): seq<Entry> {
    m.log + r.before
  }

  function Seen(m: Mailer, r: Round): seq<Entry> {
    m.log + r.before + r.between
  }

  function PassOf(services: Services, m: Mailer, r: Round): Pass {
    var log := Seen(m, r);
    var w := Walk(services, log, m.cursor, r.env.polls, 0);
    var n := if w.Read? then w.count else 0;
    Pass(Position(log, m.cursor), |log| - n, |Heard(m, r)|, |log|, Reported(services, Last(log, n)))
  }

  function Body(lines: seq<string>): seq<string> {
    if lines == [] then [] else [Join(lines, "\n")]
  }

  function Step(services: Services, m: Mailer, r: Round): Mailer {
    if m.over then m
    else
      var q := m.(log := Seen(m, r));
      match OutcomeOf(services, Heard(m, r), Seen(m, r), m.cursor, r.env)
      case Panics => q.(over := true)
      case Returns(buf, last, error) =>
        if error.StopSignal? then q.(over := true)
        else if buf != [] && !r.mailed then q
        else if last == "" then q.(over := r.quit)
        else Mailer(q.log, last, m.mails + Body(buf), r.quit, m.passes + [PassOf(services, m, r)])
  }

  function Run(services: Services, rounds: seq<Round>): Mailer {
    if rounds == [] then START
    else Step(services, Run(services, rounds[..|rounds| - 1]), rounds[|rounds| - 1])
  }

  /** The library's promise about cursors: never empty, and each names one entry. */
  ghost predicate Genuine(log: seq<Entry>) {
    && (forall i :: 0 <= i < |log| ==> log[i].cursor != "")
    && (forall i, j :: 0 <= i < j < |log| ==> log[i].cursor != log[j].cursor)
  }

  lemma PositionOf(log: seq<Entry>, t: nat)
    requires Genuine(log) && t <= |log|
    ensures Position(log, if t == 0 then "" else log[t - 1].cursor) == t
  {
    hide Position;
  }

  // ------------------------------------------------------- what a turn comes to

  /** A mail that is refused leaves everything as it was, to be tried again, but for the journal. */
  lemma RefusedIsRetried(services: Services, m: Mailer, r: Round)
    ensures var outcome := OutcomeOf(services, Heard(m, r), Seen(m, r), m.cursor, r.env);
      !m.over && !r.mailed && outcome.Returns? && !outcome.error.StopSignal? && outcome.buf != [] ==>
        Step(services, m, r) == m.(log := Seen(m, r))
  {
    hide OutcomeOf, PassOf;
  }

  /** Lines whose mail is accepted are one mail more, and the cursor is where ReadLines says. */
  lemma AcceptedMoves(services: Services, m: Mailer, r: Round)
    ensures var outcome := OutcomeOf(services, Heard(m, r), Seen(m, r), m.cursor, r.env);
      !m.over && r.mailed && outcome.Returns? && !outcome.error.StopSignal? && outcome.buf != [] ==>
        var t := Step(services, m, r);
        && t.log == Seen(m, r) && t.mails == m.mails + [Join(outcome.buf, "\n")]
        && t.cursor == outcome.last == Heard(m, r)[|Heard(m, r)| - 1].cursor != "" && t.over == r.quit
        && t.passes == m.passes + [PassOf(services, m, r)] && PassOf(services, m, r).lines == outcome.buf
  {
    LinesComeWithTail(services, m, r);
    var outcome := OutcomeOf(services, Heard(m, r), Seen(m, r), m.cursor, r.env);
    if outcome.Returns? && outcome.last != "" {
      MovesTo(services, m, r);
    }
    hide OutcomeOf, PassOf, Join, Heard, Seen;
  }

  /** Without lines no mail is sent; the cursor moves on if there was something to read. */
  lemma NothingToMail(services: Services, m: Mailer, r: Round)
    ensures var outcome := OutcomeOf(services, Heard(m, r), Seen(m, r), m.cursor, r.env);
      !m.over && outcome.Returns? && !outcome.error.StopSignal? && outcome.buf == [] ==>
        var t := Step(services, m, r);
        && t.log == Seen(m, r) && t.mails == m.mails && t.over == r.quit
        && t.cursor == if outcome.last == "" then m.cursor else outcome.last
  {
    hide OutcomeOf, PassOf;
    assert m.mails + [] == m.mails;
  }

  /** A stop signal or a panic ends the loop, and after the end nothing happens. */
  lemma EndsTheLoop(services: Services, m: Mailer, r: Round)
    ensures var outcome := OutcomeOf(services, Heard(m, r), Seen(m, r), m.cursor, r.env);
      && (m.over ==> Step(services, m, r) == m)
      && (!m.over && (outcome.Panics? || outcome.error.StopSignal?) ==>
            Step(services, m, r) == m.(log := Seen(m, r), over := true))
  {
    hide OutcomeOf, PassOf;
  }

  /** Any turn that adds to the mails, or a pass with lines, is one whose mail was accepted. */
  lemma GrowsWhenMailed(services: Services, m: Mailer, r: Round)
    ensures var t := Step(services, m, r);
      && (t.mails != m.mails ==> r.mailed)
      && (t.passes == m.passes
          || (&& t.passes == m.passes + [PassOf(services, m, r)]
              && t.mails == m.mails + Body(PassOf(services, m, r).lines)
              && (PassOf(services, m, r).lines != [] ==> r.mailed)))
  {
    RefusedIsRetried(services, m, r);
    AcceptedMoves(services, m, r);
    NothingToMail(services, m, r);
    EndsTheLoop(services, m, r);
    var outcome := OutcomeOf(services, Heard(m, r), Seen(m, r), m.cursor, r.env);
    if outcome.Returns? && outcome.last != "" {
      MovesTo(services, m, r);
    }
    hide OutcomeOf, PassOf, Join, Heard, Seen;
  }

  // -------------------------------------------------------------- invariant

  function Bodies(passes: seq<Pass>): seq<string> {
    if passes == [] then [] else Bodies(passes[..|passes| - 1]) + Body(passes[|passes| - 1].lines)
  }

  predicate PassOk(services: Services, log: seq<Entry>, pass: Pass) {
    && pass.from <= pass.read <= pass.end <= |log|
    && pass.from <= pass.tail <= pass.end
    && 0 < pass.tail
    && pass.lines == Reported(services, log[pass.read..pass.end])
  }

  predicate Follows(a: Pass, b: Pass) {
    a.tail == b.from && a.end <= b.tail
  }

  /** Where the cursor stands, as the passes tell it. */
  function Reached(passes: seq<Pass>): nat {
    if passes == [] then 0 else passes[|passes| - 1].tail
  }

  /** Each pass begins where the one before it led, the first at the start of the journal. */
  ghost predicate Linked(services: Services, log: seq<Entry>, passes: seq<Pass>) {
    && (forall k :: 0 <= k < |passes| ==> PassOk(services, log, passes[k]))
    && (forall k :: 0 < k < |passes| ==> Follows(passes[k - 1], passes[k]))
    && (passes != [] ==> passes[0].from == 0)
  }

  ghost predicate Inv(services: Services, m: Mailer) {
    && Linked(services, m.log, m.passes)
    && Reached(m.passes) <= |m.log|
    && m.cursor == (if Reached(m.passes) == 0 then "" else m.log[Reached(m.passes) - 1].cursor)
    && m.mails == Bodies(m.passes)
  }

  /** Entries that arrive change nothing about what was done. */
  lemma ArrivalKeeps(services: Services, m: Mailer, more: seq<Entry>)
    requires Inv(services, m)
    ensures Inv(services, m.(log := m.log + more))
  {
    hide Reported, Bodies;
    forall k | 0 <= k < |m.passes|
      ensures PassOk(services, m.log + more, m.passes[k])
    {
      var pass := m.passes[k];
      assert PassOk(services, m.log, pass);
      assert (m.log + more)[pass.read..pass.end] == m.log[pass.read..pass.end];
    }
  }

  /** What a call that moves the cursor read. */
  lemma MovesTo(services: Services, m: Mailer, r: Round)
    ensures var outcome := OutcomeOf(services, Heard(m, r), Seen(m, r), m.cursor, r.env);
      outcome.Returns? && outcome.last != "" ==>
        && Heard(m, r) != [] && outcome.last == Heard(m, r)[|Heard(m, r)| - 1].cursor
        && outcome.error.Nil? && Walk(services, Seen(m, r), m.cursor, r.env.polls, 0).Read?
        && outcome.buf == PassOf(services, m, r).lines
  {
    hide Walk, Reported, Heard, Seen, Position;
  }

  lemma NewPassOk(services: Services, m: Mailer, r: Round)
    requires Genuine(Seen(m, r)) && Reached(m.passes) <= |m.log|
    requires m.cursor == if Reached(m.passes) == 0 then "" else m.log[Reached(m.passes) - 1].cursor
    requires Heard(m, r) != [] && Walk(services, Seen(m, r), m.cursor, r.env.polls, 0).Read?
    ensures PassOk(services, Seen(m, r), PassOf(services, m, r))
    ensures PassOf(services, m, r).from == Reached(m.passes)
    ensures PassOf(services, m, r).tail == |Heard(m, r)| >= |m.log|
  {
    hide Walk, Reported, Position, Last, Genuine, Reached;
    var log := Seen(m, r);
    var n := Walk(services, log, m.cursor, r.env.polls, 0).count;
    PositionOf(log, Reached(m.passes));
    ReadsAllExactly(services, log, m.cursor, r.env.polls, n);
    LastIs(log, n);
  }

  lemma LastIs<T>(s: seq<T>, n: nat)
    requires n <= |s|
    ensures Last(s, n) == s[|s| - n..|s|]
  {
  }

  lemma BodiesSnoc(passes: seq<Pass>, pass: Pass)
    ensures Bodies(passes + [pass]) == Bodies(passes) + Body(pass.lines)
  {
    hide Body;
    assert (passes + [pass])[..|passes|] == passes;
  }

  lemma LinkedSnoc(services: Services, log: seq<Entry>, passes: seq<Pass>, pass: Pass)
    requires Linked(services, log, passes) && PassOk(services, log, pass) && pass.from == Reached(passes)
    requires forall k :: 0 <= k < |passes| ==> passes[k].end <= pass.tail
    ensures Linked(services, log, passes + [pass])
  {
    hide PassOk;
  }

  lemma PassAdded(services: Services, m: Mailer, pass: Pass, cursor: string, over: bool)
    requires Inv(services, m) && PassOk(services, m.log, pass) && pass.from == Reached(m.passes)
    requires forall k :: 0 <= k < |m.passes| ==> m.passes[k].end <= pass.tail
    requires cursor == m.log[pass.tail - 1].cursor
    ensures Inv(services, Mailer(m.log, cursor, m.mails + Body(pass.lines), over, m.passes + [pass]))
  {
    hide Linked;
    BodiesSnoc(m.passes, pass);
    LinkedSnoc(services, m.log, m.passes, pass);
    assert 0 < pass.tail <= |m.log|;
    assert Reached(m.passes + [pass]) == pass.tail;
    hide PassOk, Body, Bodies;
  }

  /** The turn that moves the cursor. */
  lemma MoveKeeps(services: Services, m: Mailer, r: Round)
    ensures var outcome := OutcomeOf(services, Heard(m, r), Seen(m, r), m.cursor, r.env);
      outcome.Returns? && outcome.last != "" && Inv(services, m) && Genuine(Seen(m, r)) ==>
        Inv(services, Mailer(Seen(m, r), outcome.last, m.mails + Body(outcome.buf), r.quit,
                             m.passes + [PassOf(services, m, r)]))
  {
    var outcome := OutcomeOf(services, Heard(m, r), Seen(m, r), m.cursor, r.env);
    hide Genuine, Reported, Walk, Body, PassOf, OutcomeOf, PassOk, Bodies;
    if outcome.Returns? && outcome.last != "" && Inv(services, m) && Genuine(Seen(m, r)) {
      MovesTo(services, m, r);
      NewPassOk(services, m, r);
      Earlier(services, m.log, m.passes);
      SeenKeeps(services, m, r);
      hide Inv;
      PassAdded(services, m.(log := Seen(m, r)), PassOf(services, m, r), outcome.last, r.quit);
    }
  }

  lemma SeenKeeps(services: Services, m: Mailer, r: Round)
    requires Inv(services, m)
    ensures Inv(services, m.(log := Seen(m, r)))
  {
    hide Inv;
    ArrivalKeeps(services, m, r.before);
    ArrivalKeeps(services, m.(log := m.log + r.before), r.between);
  }

  lemma OverIsFree(services: Services, m: Mailer, over: bool)
    ensures Inv(services, m) ==> Inv(services, m.(over := over))
  {
    hide PassOk, Bodies;
  }

  lemma StepKeeps(services: Services, m: Mailer, r: Round)
    ensures Inv(services, m) && Genuine(Step(services, m, r).log) ==> Inv(services, Step(services, m, r))
  {
    if !m.over && Inv(services, m) {
      hide Genuine, Body, PassOf, OutcomeOf, Inv, Heard, Seen;
      SeenKeeps(services, m, r);
      var q := m.(log := Seen(m, r));
      OverIsFree(services, q, true);
      OverIsFree(services, q, r.quit);
      var outcome := OutcomeOf(services, Heard(m, r), Seen(m, r), m.cursor, r.env);
      if outcome.Returns? && outcome.last != "" {
        MoveKeeps(services, m, r);
      }
    }
  }

  lemma Earlier(services: Services, log: seq<Entry>, passes: seq<Pass>)
    requires Linked(services, log, passes)
    ensures forall k :: 0 <= k < |passes| ==> passes[k].end <= |log|
  {
    forall k | 0 <= k < |passes|
      ensures passes[k].end <= |log|
    {
      assert PassOk(services, log, passes[k]);
    }
  }

  lemma LogGrows(services: Services, m: Mailer, r: Round)
    ensures m.log <= Step(services, m, r).log
  {
    hide OutcomeOf, PassOf, Body;
  }

  lemma {:induction false} InvHolds(services: Services, rounds: seq<Round>)
    ensures Genuine(Run(services, rounds).log) ==> Inv(services, Run(services, rounds))
  {
    if rounds != [] && Genuine(Run(services, rounds).log) {
      var init, r := rounds[..|rounds| - 1], rounds[|rounds| - 1];
      LogGrows(services, Run(services, init), r);
      hide Step, Inv;
      InvHolds(services, init);
      StepKeeps(services, Run(services, init), r);
    }
  }

  // ---------------------------------------------------------------- delivery

  /** The pass read the entry at position p. */
  predicate Covers(pass: Pass, p: nat) {
    pass.read <= p < pass.end
  }

  /** The entry at position p was read by a pass that had something to mail. */
  ghost predicate Mailed(m: Mailer, p: nat) {
    exists k :: 0 <= k < |m.passes| && Covers(m.passes[k], p) && m.passes[k].lines != []
  }

  /** Pass k moved the cursor over p without reading it, and the pass before had not read it either. */
  predicate Skipped(passes: seq<Pass>, k: nat, p: nat)
    requires k < |passes|
  {
    && passes[k].from <= p < passes[k].tail && p < passes[k].read
    && (k > 0 ==> !Covers(passes[k - 1], p))
  }

  /** The line of a selected entry is in the mail of each pass that read the entry. */
  lemma CoveredIsMailed(services: Services, m: Mailer, k: nat, p: nat)
    ensures Inv(services, m) && k < |m.passes| && Covers(m.passes[k], p)
            && p < |m.log| && VerdictOf(services, m.log[p]).Line? ==>
              && VerdictOf(services, m.log[p]).text in m.passes[k].lines
              && Join(m.passes[k].lines, "\n") in m.mails
  {
    hide VerdictOf, Bodies, Join, Reported;
    if Inv(services, m) && k < |m.passes| && Covers(m.passes[k], p) {
      var pass := m.passes[k];
      assert PassOk(services, m.log, pass);
      if VerdictOf(services, m.log[p]).Line? {
        LineOfSlice(services, m.log, pass.read, pass.end, p);
        hide Inv;
        BodyIsSent(m.passes, k);
      }
    }
  }

  lemma LineOfSlice(services: Services, log: seq<Entry>, from: nat, to: nat, p: nat)
    requires from <= p < to <= |log| && VerdictOf(services, log[p]).Line?
    ensures VerdictOf(services, log[p]).text in Reported(services, log[from..to])
  {
    hide VerdictOf, Reported;
    assert log[from..to][p - from] == log[p];
    LineIsReported(services, log[from..to], p - from);
  }

  lemma {:induction false} BodyIsSent(passes: seq<Pass>, k: nat)
    requires k < |passes| && passes[k].lines != []
    ensures Join(passes[k].lines, "\n") in Bodies(passes)
  {
    if k < |passes| - 1 {
      BodyIsSent(passes[..|passes| - 1], k);
    } else {
      assert Body(passes[k].lines)[0] == Join(passes[k].lines, "\n");
    }
  }

  /** The passes are in order: a later one starts at or after where an earlier one led. */
  lemma {:induction false} InOrder(services: Services, m: Mailer, i: nat, j: nat)
    requires Inv(services, m) && i < j < |m.passes|
    ensures m.passes[i].tail <= m.passes[j].from && m.passes[i].end <= m.passes[j].tail
    ensures i < j - 1 ==> m.passes[i].end <= m.passes[j].from
    decreases j
  {
    hide Reported, Bodies;
    assert Follows(m.passes[j - 1], m.passes[j]);
    assert PassOk(services, m.log, m.passes[j - 1]) && PassOk(services, m.log, m.passes[j]);
    if i < j - 1 {
      InOrder(services, m, i, j - 1);
    }
  }

  /** Some pass led the cursor over p. */
  lemma {:induction false} LedOver(services: Services, m: Mailer, n: nat, p: nat) returns (k: nat)
    requires Inv(services, m) && 0 < n <= |m.passes| && p < m.passes[n - 1].tail
    ensures k < n && m.passes[k].from <= p < m.passes[k].tail
  {
    hide Reported, Bodies, PassOk;
    k := n - 1;
    if p < m.passes[k].from {
      assert Follows(m.passes[k - 1], m.passes[k]);
      k := LedOver(services, m, n - 1, p);
    }
  }

  /** What was logged between p and `end` leaves p within the limits of a walk that begins at `end`. */
  predicate InReach(services: Services, log: seq<Entry>, end: nat, p: nat) {
    && p < end <= |log|
    && end - p - 1 < 1024
    && Size(services, log[p + 1..end]) <= 512 * 1024
  }

  /**
   Pass k moved the cursor over p with too much logged after p for its walk to get back there,
   and the walk of the pass before, if it began behind p, had too much on its way as well.
   */
  predicate CutOff(services: Services, log: seq<Entry>, passes: seq<Pass>, k: nat, p: nat)
    requires k < |passes|
  {
    && passes[k].from <= p < passes[k].tail
    && !InReach(services, log, passes[k].end, p)
    && (k > 0 ==> !InReach(services, log, passes[k - 1].end, p))
  }

  /** A pass read exactly the entries within reach. */
  predicate ExactPass(services: Services, log: seq<Entry>, pass: Pass) {
    forall p :: pass.from <= p < pass.end ==> (pass.read <= p <==> InReach(services, log, pass.end, p))
  }

  predicate AllExact(services: Services, log: seq<Entry>, passes: seq<Pass>) {
    forall k :: 0 <= k < |passes| ==> ExactPass(services, log, passes[k])
  }

  lemma NewPassExact(services: Services, m: Mailer, r: Round)
    requires Walk(services, Seen(m, r), m.cursor, r.env.polls, 0).Read?
    ensures ExactPass(services, Seen(m, r), PassOf(services, m, r))
  {
    hide Walk, Reported, Position, Size;
    var log := Seen(m, r);
    var n := Walk(services, log, m.cursor, r.env.polls, 0).count;
    forall p | PassOf(services, m, r).from <= p < |log|
      ensures |log| - n <= p <==> InReach(services, log, |log|, p)
    {
      ReachesExactly(services, log, m.cursor, r.env.polls, n, |log| - p - 1);
      assert Last(log, |log| - p - 1) == log[p + 1..|log|];
    }
  }

  lemma StaysExact(services: Services, log: seq<Entry>, more: seq<Entry>, pass: Pass)
    requires ExactPass(services, log, pass) && pass.end <= |log|
    ensures ExactPass(services, log + more, pass)
  {
    hide Size;
    forall p: nat | p < pass.end
      ensures InReach(services, log + more, pass.end, p) <==> InReach(services, log, pass.end, p)
    {
      assert (log + more)[p + 1..pass.end] == log[p + 1..pass.end];
    }
  }

  lemma SeenExact(services: Services, m: Mailer, r: Round)
    requires AllExact(services, m.log, m.passes)
    requires forall k :: 0 <= k < |m.passes| ==> m.passes[k].end <= |m.log|
    ensures AllExact(services, Seen(m, r), m.passes)
  {
    hide ExactPass;
    forall k | 0 <= k < |m.passes|
      ensures ExactPass(services, Seen(m, r), m.passes[k])
    {
      StaysExact(services, m.log, r.before, m.passes[k]);
      StaysExact(services, m.log + r.before, r.between, m.passes[k]);
    }
  }

  lemma StepExact(services: Services, m: Mailer, r: Round)
    ensures Inv(services, m) && AllExact(services, m.log, m.passes) ==>
      var after := Step(services, m, r); AllExact(services, after.log, after.passes)
  {
    if Inv(services, m) && AllExact(services, m.log, m.passes) {
      Earlier(services, m.log, m.passes);
      SeenExact(services, m, r);
      StepLog(services, m, r);
      StaysOrMoves(services, m, r);
      if Moves(services, m, r) {
        MoveReads(services, m, r);
        NewPassExact(services, m, r);
        ExactSnoc(services, Seen(m, r), m.passes, PassOf(services, m, r));
      }
      hide Step, AllExact, Seen, PassOf, Inv, Moves;
    }
  }

  lemma ExactSnoc(services: Services, log: seq<Entry>, passes: seq<Pass>, pass: Pass)
    requires AllExact(services, log, passes) && ExactPass(services, log, pass)
    ensures AllExact(services, log, passes + [pass])
  {
    hide ExactPass;
  }

  lemma {:induction false} ExactHolds(services: Services, rounds: seq<Round>)
    ensures var m := Run(services, rounds); Genuine(m.log) ==> AllExact(services, m.log, m.passes)
  {
    if rounds != [] && Genuine(Run(services, rounds).log) {
      var init, r := rounds[..|rounds| - 1], rounds[|rounds| - 1];
      LogGrows(services, Run(services, init), r);
      hide Step, Inv, AllExact;
      ExactHolds(services, init);
      InvHolds(services, init);
      StepExact(services, Run(services, init), r);
    }
  }

  /** Being skipped is being beyond the limits. */
  lemma SkippedIsCutOff(services: Services, m: Mailer, k: nat, p: nat)
    requires Inv(services, m) && AllExact(services, m.log, m.passes) && k < |m.passes|
    ensures Skipped(m.passes, k, p) <==> CutOff(services, m.log, m.passes, k, p)
  {
    hide Reported, Bodies, InReach;
    assert PassOk(services, m.log, m.passes[k]) && ExactPass(services, m.log, m.passes[k]);
    if k > 0 {
      assert PassOk(services, m.log, m.passes[k - 1]) && ExactPass(services, m.log, m.passes[k - 1]);
      assert Follows(m.passes[k - 1], m.passes[k]);
      NoReachBeyond(services, m.log, m.passes[k - 1].end, p);
    }
  }

  lemma NoReachBeyond(services: Services, log: seq<Entry>, end: nat, p: nat)
    ensures p >= end ==> !InReach(services, log, end, p)
  {
  }

  /**
   A selected entry at or before the cursor has been mailed, unless the pass that led the cursor
   over it cut it off by the limits; and then it is in no mail.
   */
  lemma MailedUnlessCutOff(services: Services, rounds: seq<Round>, p: nat)
    ensures var m := Run(services, rounds);
      Genuine(m.log) && SelectedUpTo(services, m, p) ==>
        (Mailed(m, p) <==> !exists k :: 0 <= k < |m.passes| && CutOff(services, m.log, m.passes, k, p))
  {
    var m := Run(services, rounds);
    if Genuine(m.log) && SelectedUpTo(services, m, p) {
      InvHolds(services, rounds);
      ExactHolds(services, rounds);
      hide Run, Inv, AllExact, CutOff, Skipped, Genuine;
      MailedUnlessSkipped(services, m, p);
      forall k: nat | k < |m.passes|
        ensures Skipped(m.passes, k, p) <==> CutOff(services, m.log, m.passes, k, p)
      {
        SkippedIsCutOff(services, m, k, p);
      }
    }
  }

  lemma MailedUnlessSkipped(services: Services, m: Mailer, p: nat)
    requires Inv(services, m)
    ensures Genuine(m.log) && SelectedUpTo(services, m, p) ==>
      (Mailed(m, p) <==> !exists k :: 0 <= k < |m.passes| && Skipped(m.passes, k, p))
  {
    hide VerdictOf, Skipped, Bodies, Mailed;
    if Genuine(m.log) && SelectedUpTo(services, m, p) {
      PositionOf(m.log, Reached(m.passes));
      var k := LedOver(services, m, |m.passes|, p);
      OnePassDecides(services, m, k, p);
    }
  }

  /** The entry at position p is at or before the cursor, and one that is to be reported. */
  predicate SelectedUpTo(services: Services, m: Mailer, p: nat) {
    p < Position(m.log, m.cursor) && VerdictOf(services, m.log[p]).Line?
  }

  lemma OnePassDecides(services: Services, m: Mailer, k: nat, p: nat)
    requires Inv(services, m) && k < |m.passes| && m.passes[k].from <= p < m.passes[k].tail
    requires p < |m.log| && VerdictOf(services, m.log[p]).Line?
    ensures Skipped(m.passes, k, p) ==> !Mailed(m, p)
    ensures !Skipped(m.passes, k, p) ==> Mailed(m, p)
    ensures forall i :: 0 <= i < |m.passes| && i != k ==> !Skipped(m.passes, i, p)
  {
    hide VerdictOf, Reported, Bodies;
    assert PassOk(services, m.log, m.passes[k]);
    forall i | 0 <= i < |m.passes| && i != k
      ensures !Skipped(m.passes, i, p)
      ensures i < k - 1 ==> m.passes[i].end <= p
      ensures i > k ==> p < m.passes[i].read
    {
      assert PassOk(services, m.log, m.passes[i]);
      if i < k {
        InOrder(services, m, i, k);
      } else {
        InOrder(services, m, k, i);
      }
    }
    if !Skipped(m.passes, k, p) {
      CoveredIsMailed(services, m, if m.passes[k].read <= p then k else k - 1, p);
    }
  }

  /** Round i of a run made its pass k; if the pass has lines, by a mail that was accepted. */
  ghost predicate MadeBy(services: Services, rounds: seq<Round>, k: nat, i: nat) {
    && i < |rounds| && k < |Run(services, rounds).passes|
    && var m, t := Run(services, rounds[..i]), Run(services, rounds[..i + 1]);
      var pass := Run(services, rounds).passes[k];
      && t == Step(services, m, rounds[i])
      && |m.passes| == k && t.passes == m.passes + [pass]
      && t.mails == m.mails + Body(pass.lines)
      && (pass.lines != [] ==> rounds[i].mailed)
  }

  lemma MadeByLast(services: Services, rounds: seq<Round>, k: nat)
    requires rounds != []
    ensures var last := |rounds| - 1;
      |Run(services, rounds[..last]).passes| <= k < |Run(services, rounds).passes| ==> MadeBy(services, rounds, k, last)
  {
    var last := |rounds| - 1;
    GrowsWhenMailed(services, Run(services, rounds[..last]), rounds[last]);
    assert rounds[..last + 1] == rounds;
    hide Step, Body, PassOf;
  }

  lemma MadeByEarlier(services: Services, rounds: seq<Round>, k: nat, i: nat)
    requires rounds != []
    ensures MadeBy(services, rounds[..|rounds| - 1], k, i) ==> MadeBy(services, rounds, k, i)
  {
    var last := |rounds| - 1;
    GrowsWhenMailed(services, Run(services, rounds[..last]), rounds[last]);
    assert Run(services, rounds) == Step(services, Run(services, rounds[..last]), rounds[last]);
    assert i < last ==> rounds[..last][..i] == rounds[..i] && rounds[..last][..i + 1] == rounds[..i + 1];
    hide Step, Run, Body, PassOf;
  }

  lemma {:induction false} RoundOfPass(services: Services, rounds: seq<Round>, k: nat) returns (i: nat)
    ensures k < |Run(services, rounds).passes| ==> MadeBy(services, rounds, k, i)
  {
    hide Step, MadeBy;
    i := 0;
    if rounds != [] {
      var last := |rounds| - 1;
      MadeByLast(services, rounds, k);
      i := last;
      if k < |Run(services, rounds[..last]).passes| {
        i := RoundOfPass(services, rounds[..last], k);
        MadeByEarlier(services, rounds, k, i);
      }
    }
  }

  /**
   An entry counts as mailed only through a round whose mail was accepted: the mail it is in was
   added to the accepted ones in that round.
   */
  lemma MailedMeansAccepted(services: Services, rounds: seq<Round>, p: nat) returns (i: nat, k: nat)
    ensures Mailed(Run(services, rounds), p) ==>
      && i < |rounds| && rounds[i].mailed
      && k < |Run(services, rounds).passes| && Covers(Run(services, rounds).passes[k], p)
      && Run(services, rounds[..i + 1]).mails
         == Run(services, rounds[..i]).mails + [Join(Run(services, rounds).passes[k].lines, "\n")]
  {
    var m := Run(services, rounds);
    i, k := 0, 0;
    if Mailed(m, p) {
      k :| 0 <= k < |m.passes| && Covers(m.passes[k], p) && m.passes[k].lines != [];
      i := RoundOfPass(services, rounds, k);
      hide Run, Step, Join;
    }
  }

  /** A refused mail: the entry is not lost, the cursor stays and nothing counts as mailed. */
  lemma RefusedExample()
    ensures var m := Run(map[], [Round([Entry("1", "", "", "down")], [], Env(true, []), false, false)]);
      m.cursor == "" && m.mails == [] && m.passes == [] && m.log == [Entry("1", "", "", "down")] && !m.over
  {
    var services: Services, e := map[], Entry("1", "", "", "down");
    var r := Round([e], [], Env(true, []), false, false);
    hide Run, Step, Walk, VerdictOf, Reported;
    RunOfOne(services, r);
    StartSees(r);
    assert [e] + [] == [e];
    PlainIsReported(e);
    GoodWindowIsRead(services, [e], "", []);
    OneIsRead(services, e);
    RefusedIsRetried(services, START, r);
  }

  lemma PlainIsReported(e: Entry)
    requires e.unit == "" && e.priority == ""
    ensures VerdictOf(map[], e).Line?
  {
  }

  lemma OneIsRead(services: Services, e: Entry)
    requires e.cursor != "" && VerdictOf(services, e).Line? && Walk(services, [e], "", [], 0).Read?
    ensures var outcome := OutcomeOf(services, [e], [e], "", Env(true, []));
      outcome.Returns? && outcome.error.Nil? && outcome.buf != []
  {
    hide VerdictOf, Walk;
    var n := Walk(services, [e], "", [], 0).count;
    assert Unread([e], "") == [e] by {
      assert Position([e], "") == 0;
    }
    ReachesExactly(services, [e], "", [], n, 0);
    assert Last([e], 0) == [];
    assert Last([e], n) == [e];
    LineIsReported(services, [e], 0);
  }

  // ------------------------------------------------------------------ limits

  /** What is unread when the loop walks back is within the limits. */
  predicate TurnFits(services: Services, m: Mailer, r: Round) {
    Fits(services, Unread(Seen(m, r), m.cursor))
  }

  predicate Moves(services: Services, m: Mailer, r: Round) {
    |Step(services, m, r).passes| > |m.passes|
  }

  /** Each turn of the run that moved the cursor was within the limits. */
  predicate FitsThroughout(services: Services, rounds: seq<Round>) {
    rounds != [] ==>
      var init, r := rounds[..|rounds| - 1], rounds[|rounds| - 1];
      && FitsThroughout(services, init)
      && (Moves(services, Run(services, init), r) ==> TurnFits(services, Run(services, init), r))
  }

  predicate ReadsAll(passes: seq<Pass>) {
    forall k :: 0 <= k < |passes| ==> passes[k].read == passes[k].from
  }

  lemma MoveReadsAll(services: Services, m: Mailer, r: Round)
    requires Moves(services, m, r)
    ensures var after := Step(services, m, r).passes;
      && after == m.passes + [PassOf(services, m, r)]
      && (PassOf(services, m, r).read == PassOf(services, m, r).from <==> TurnFits(services, m, r))
  {
    hide Walk, Reported, Position, Last, Fits, Heard, Seen, Body;
    MoveReads(services, m, r);
    var log := Seen(m, r);
    ReadsAllExactly(services, log, m.cursor, r.env.polls, Walk(services, log, m.cursor, r.env.polls, 0).count);
  }

  lemma MoveReads(services: Services, m: Mailer, r: Round)
    requires Moves(services, m, r)
    ensures Step(services, m, r).passes == m.passes + [PassOf(services, m, r)]
    ensures Walk(services, Seen(m, r), m.cursor, r.env.polls, 0).Read?
  {
    hide Walk, Reported, PassOf, Heard, Seen, Body, OutcomeOf;
    var outcome := OutcomeOf(services, Heard(m, r), Seen(m, r), m.cursor, r.env);
    MovesTo(services, m, r);
  }

  lemma StaysOrMoves(services: Services, m: Mailer, r: Round)
    ensures Moves(services, m, r) || Step(services, m, r).passes == m.passes
  {
    hide PassOf, OutcomeOf, Body, Heard, Seen;
  }

  /** A run reads every entry its cursor passed exactly when it stays within the limits. */
  lemma {:induction false} LimitsDecide(services: Services, rounds: seq<Round>)
    ensures ReadsAll(Run(services, rounds).passes) <==> FitsThroughout(services, rounds)
  {
    if rounds != [] {
      var init, r := rounds[..|rounds| - 1], rounds[|rounds| - 1];
      var m := Run(services, init);
      LimitsDecide(services, init);
      StaysOrMoves(services, m, r);
      if Moves(services, m, r) {
        MoveReadsAll(services, m, r);
        ReadsAllSnoc(m.passes, PassOf(services, m, r));
      }
      hide Moves, PassOf, Step, TurnFits, ReadsAll;
    }
  }

  lemma ReadsAllSnoc(passes: seq<Pass>, pass: Pass)
    ensures ReadsAll(passes + [pass]) <==> ReadsAll(passes) && pass.read == pass.from
  {
    if ReadsAll(passes + [pass]) {
      forall k | 0 <= k < |passes|
        ensures passes[k].read == passes[k].from
      {
        assert (passes + [pass])[k] == passes[k];
      }
      assert (passes + [pass])[|passes|] == pass;
    }
  }

  /** Within the limits no selected entry is missed: all of them up to the cursor were mailed. */
  lemma NothingMissed(services: Services, rounds: seq<Round>, p: nat)
    ensures var m := Run(services, rounds);
      Genuine(m.log) && FitsThroughout(services, rounds) && SelectedUpTo(services, m, p) ==> Mailed(m, p)
  {
    hide VerdictOf, FitsThroughout, Run, Position, Genuine, SelectedUpTo, Inv;
    LimitsDecide(services, rounds);
    InvHolds(services, rounds);
    if Genuine(Run(services, rounds).log) {
      MailedUnlessSkipped(services, Run(services, rounds), p);
    }
  }

  /**
   An entry is in two mails only if they are consecutive and it arrived between the first
   one's look at the tail and its walk back. So it is never in three.
   */
  lemma TwiceOnlyInTheGap(services: Services, rounds: seq<Round>, i: nat, j: nat, p: nat)
    ensures var m := Run(services, rounds);
      Genuine(m.log) && i < j < |m.passes| && Covers(m.passes[i], p) && Covers(m.passes[j], p) ==>
        j == i + 1 && m.passes[i].tail <= p < m.passes[i].end
  {
    var m := Run(services, rounds);
    hide Reported, Bodies;
    if Genuine(m.log) && i < j < |m.passes| {
      InvHolds(services, rounds);
      hide Run;
      InOrder(services, m, i, j);
      assert PassOk(services, m.log, m.passes[j]);
    }
  }

  /** In how many passes an entry was read. */
  function Times(passes: seq<Pass>, p: nat): nat {
    if passes == [] then 0
    else Times(passes[..|passes| - 1], p) + if Covers(passes[|passes| - 1], p) then 1 else 0
  }

  lemma {:induction false} TimesIsZero(passes: seq<Pass>, p: nat)
    requires forall k :: 0 <= k < |passes| ==> !Covers(passes[k], p)
    ensures Times(passes, p) == 0
  {
    if passes != [] {
      TimesIsZero(passes[..|passes| - 1], p);
    }
  }

  /** Reads of one entry are at most two where no pass but the next one reads it again. */
  lemma {:induction false} TimesIsSmall(passes: seq<Pass>, p: nat)
    requires forall i, j :: 0 <= i < j < |passes| && Covers(passes[i], p) && Covers(passes[j], p) ==> j == i + 1
    ensures Times(passes, p) <= 2
  {
    var n := |passes|;
    if n > 0 {
      var init := passes[..n - 1];
      TimesIsSmall(init, p);
      if Covers(passes[n - 1], p) && n > 1 {
        assert init[..n - 2] == passes[..n - 2];
        TimesIsZero(passes[..n - 2], p);
      }
    }
  }

  /** No entry is mailed more than twice. */
  lemma AtMostTwice(services: Services, rounds: seq<Round>, p: nat)
    ensures Genuine(Run(services, rounds).log) ==> Times(Run(services, rounds).passes, p) <= 2
  {
    var passes := Run(services, rounds).passes;
    hide Run, Genuine;
    if Genuine(Run(services, rounds).log) {
      forall i: nat, j: nat | i < j < |passes| && Covers(passes[i], p) && Covers(passes[j], p)
        ensures j == i + 1
      {
        TwiceOnlyInTheGap(services, rounds, i, j, p);
      }
      TimesIsSmall(passes, p);
    }
  }

  // ------------------------------------------------------------ past the limits

  /** What a pass that stopped early did not get to is not in its mail. */
  lemma UnreadIsUnmailed(m: Mailer, pass: Pass)
    requires m.passes == [pass] && pass.from < pass.read
    ensures !Mailed(m, pass.from)
  {
    forall k | 0 <= k < |m.passes|
      ensures !Covers(m.passes[k], pass.from)
    {
      assert m.passes[k] == pass;
    }
  }

  lemma FirstTurn(services: Services, r: Round)
    requires Moves(services, START, r)
    ensures var m := Run(services, [r]);
      && m.log == r.before + r.between
      && m.passes == [PassOf(services, START, r)] && PassOf(services, START, r).tail == |r.before|
  {
    RunOfOne(services, r);
    StartSees(r);
    MoveReadsAll(services, START, r);
    PassTail(services, START, r);
    StepLog(services, START, r);
    hide Step, PassOf, Run, Seen, Heard, Moves;
  }

  lemma RunOfOne(services: Services, r: Round)
    ensures Run(services, [r]) == Step(services, START, r)
  {
    hide Step;
    assert [r][..0] == [];
  }

  lemma StartSees(r: Round)
    ensures Seen(START, r) == r.before + r.between && Heard(START, r) == r.before
  {
  }

  lemma StepLog(services: Services, m: Mailer, r: Round)
    ensures Step(services, m, r).log == if m.over then m.log else Seen(m, r)
  {
    hide PassOf, OutcomeOf, Body, Seen, Heard;
  }

  lemma PassTail(services: Services, m: Mailer, r: Round)
    ensures PassOf(services, m, r).tail == |Heard(m, r)|
  {
  }

  /** A first turn past the limits loses the oldest entry, whatever comes with it. */
  lemma BacklogIsCutOff(services: Services, r: Round)
    ensures var m := Run(services, [r]);
      Genuine(r.before + r.between) && Moves(services, START, r) && !TurnFits(services, START, r) ==>
        m.log == r.before + r.between && Position(m.log, m.cursor) == |r.before| && !Mailed(m, 0)
  {
    hide Step, Walk, Genuine, Position, PassOf, TurnFits, Reported, Bodies, Moves;
    if Genuine(r.before + r.between) && Moves(services, START, r) && !TurnFits(services, START, r) {
      FirstTurn(services, r);
      MoveReadsAll(services, START, r);
      InvHolds(services, [r]);
      var m := Run(services, [r]);
      hide Run;
      PositionOf(m.log, Reached(m.passes));
      assert PassOk(services, m.log, m.passes[0]);
      UnreadIsUnmailed(m, m.passes[0]);
    }
  }

  function Message(i: nat): Entry {
    Entry(Utoa(i), "", "", "down")
  }

  function Backlog(n: nat): (log: seq<Entry>)
    ensures |log| == n && forall i :: 0 <= i < n ==> log[i] == Message(i)
  {
    seq(n, i requires 0 <= i => Message(i))
  }

  lemma BacklogIsGenuine(n: nat)
    ensures Genuine(Backlog(n))
  {
    hide Backlog, Utoa;
    forall i: nat | i < n
      ensures Backlog(n)[i].cursor != ""
    {
      UtoaIsDigits(i);
    }
    forall i: nat, j: nat | i < j < n
      ensures Backlog(n)[i].cursor != Backlog(n)[j].cursor
    {
      if Utoa(i) == Utoa(j) {
        UtoaInjective(i, j);
      }
    }
  }

  lemma MessageIsReported(i: nat)
    ensures VerdictOf(map[], Message(i)).Line?
  {
  }

  lemma GoodWindowIsRead(services: Services, log: seq<Entry>, cursor: string, polls: seq<Poll>)
    requires Quiet(polls) && forall i :: 0 <= i < |log| ==> Good(services, log[i])
    ensures Walk(services, log, cursor, polls, 0).Read?
  {
    hide Walk, Reported, Cut, Good;
    NoLines(services, log);
    WalkIs(services, log, cursor, polls, 0);
  }

  /** 1025 plain messages at start-up: the cursor moves past all of them, the first is in no mail. */
  lemma AnIssueIsMissed()
    ensures var m := Run(map[], [Round(Backlog(1025), [], Env(true, []), true, false)]);
      && Genuine(m.log) && Position(m.log, m.cursor) == 1025
      && m.log[0] == Message(0) && VerdictOf(map[], m.log[0]).Line? && !Mailed(m, 0)
  {
    hide VerdictOf, Walk, Backlog, Message, Run, Reported, Genuine, Position, Moves, Mailed;
    var services: Services := map[];
    var log := Backlog(1025);
    var r := Round(log, [], Env(true, []), true, false);
    BacklogIsGenuine(1025);
    forall i: nat | i < 1025
      ensures Good(services, log[i])
    {
      MessageIsReported(i);
    }
    MessageIsReported(0);
    assert log + [] == log;
    BacklogMoves(r);
    BacklogIsCutOff(services, r);
  }

  lemma BacklogMoves(r: Round)
    requires r.before != [] && r.between == [] && r.env == Env(true, []) && r.mailed
    requires Genuine(r.before) && |r.before| > MAX_ENTRIES
    requires forall i :: 0 <= i < |r.before| ==> Good(map[], r.before[i])
    ensures Moves(map[], START, r) && !TurnFits(map[], START, r)
  {
    hide Good, Moves;
    assert Heard(START, r) == r.before && Seen(START, r) == r.before;
    GoodWindowIsRead(map[], r.before, "", []);
    MailMoves(map[], START, r);
    PositionOf(r.before, 0);
    hide Position, Walk, Genuine;
  }

  /** A turn that finds something new, reads it and mails it moves the cursor. */
  lemma MailMoves(services: Services, m: Mailer, r: Round)
    requires !m.over && r.env.opens && r.mailed
    requires Heard(m, r) != [] && Heard(m, r)[|Heard(m, r)| - 1].cursor !in {m.cursor, ""}
    requires Walk(services, Seen(m, r), m.cursor, r.env.polls, 0).Read?
    ensures Moves(services, m, r)
  {
    hide Walk, Reported, PassOf, Body, Last, Heard, Seen;
  }

  // ---------------------------------------------------- below the severity

  /** The pass read the entry at position p and ignored it. */
  predicate ReadsPast(services: Services, log: seq<Entry>, pass: Pass, p: nat) {
    Covers(pass, p) && pass.end <= |log| && VerdictOf(services, log[p]).Ignored?
  }

  /** The lines of the entries that a pass read, without the one at position p. */
  function LinesWithout(services: Services, log: seq<Entry>, pass: Pass, p: nat): seq<string>
    requires ReadsPast(services, log, pass, p)
  {
    Reported(services, log[pass.read..p]) + Reported(services, log[p + 1..pass.end])
  }

  /**
   What a pass reads past it never mails: with or without an ignored entry its lines are the
   same. A grave entry below the severity is such an entry, and the cursor moves on past it.
   */
  lemma IgnoredIsNeverMailed(services: Services, rounds: seq<Round>, k: nat, p: nat)
    ensures var m := Run(services, rounds);
      Genuine(m.log) && k < |m.passes| && ReadsPast(services, m.log, m.passes[k], p) ==>
        m.passes[k].lines == LinesWithout(services, m.log, m.passes[k], p)
  {
    hide VerdictOf;
    var m := Run(services, rounds);
    InvHolds(services, rounds);
    hide Run, Reported, Bodies;
    if Genuine(m.log) && k < |m.passes| && ReadsPast(services, m.log, m.passes[k], p) {
      assert PassOk(services, m.log, m.passes[k]);
      IgnoredAddsNothing(services, m.log, m.passes[k].read, p, m.passes[k].end);
    }
  }

  lemma IgnoredAddsNothing(services: Services, log: seq<Entry>, from: nat, p: nat, to: nat)
    requires from <= p < to <= |log| && VerdictOf(services, log[p]).Ignored?
    ensures Reported(services, log[from..to]) == Reported(services, log[from..p]) + Reported(services, log[p + 1..to])
  {
    hide VerdictOf;
    assert log[from..to] == log[from..p] + log[p..to];
    ReportedConcat(services, log[from..p], log[p..to]);
    assert log[p..to][1..] == log[p + 1..to];
    NothingAdded(Reported(services, log[p + 1..to]), VerdictOf(services, log[p]));
  }

  lemma {:induction false} NothingReported(services: Services, entries: seq<Entry>)
    requires forall i :: 0 <= i < |entries| ==> VerdictOf(services, entries[i]).Ignored?
    ensures Reported(services, entries) == []
  {
    hide VerdictOf;
    if entries != [] {
      NothingReported(services, entries[1..]);
    }
  }

  predicate AllIgnored(services: Services, log: seq<Entry>) {
    forall i :: 0 <= i < |log| ==> VerdictOf(services, log[i]).Ignored?
  }

  /** A first turn that finds nothing but ignored entries mails nothing and moves past them all. */
  lemma IgnoredArePassed(services: Services, r: Round)
    requires r.before != [] && r.between == [] && r.env == Env(true, []) && r.mailed
    ensures var m := Run(services, [r]);
      Genuine(r.before) && AllIgnored(services, r.before) ==>
        m.log == r.before && Position(m.log, m.cursor) == |r.before| && m.mails == []
  {
    if Genuine(r.before) && AllIgnored(services, r.before) {
      hide VerdictOf, Moves, Walk, Reported, Genuine, Position, Run, PassOf, Inv, Last, Heard, Seen;
      assert r.before + [] == r.before;
      IgnoredMove(services, r);
      FirstTurn(services, r);
      InvHolds(services, [r]);
      NothingInPass(services, Run(services, [r]));
      PositionOf(r.before, |r.before|);
    }
  }

  lemma IgnoredMove(services: Services, r: Round)
    requires r.before != [] && r.between == [] && r.env == Env(true, []) && r.mailed
    requires Genuine(r.before) && AllIgnored(services, r.before)
    ensures Moves(services, START, r)
  {
    hide VerdictOf, Moves, Walk, Reported, Genuine, Heard, Seen;
    StartSees(r);
    assert r.before + [] == r.before;
    GoodWindowIsRead(services, r.before, "", []);
    CursorIsNamed(r.before);
    MailMoves(services, START, r);
  }

  lemma CursorIsNamed(log: seq<Entry>)
    requires Genuine(log) && log != []
    ensures log[|log| - 1].cursor != ""
  {
  }

  lemma NothingInPass(services: Services, m: Mailer)
    requires Inv(services, m) && |m.passes| == 1
    requires AllIgnored(services, m.log)
    ensures m.mails == [] && 0 < m.passes[0].tail <= |m.log| && m.cursor == m.log[m.passes[0].tail - 1].cursor
  {
    hide VerdictOf, Reported;
    var pass := m.passes[0];
    assert PassOk(services, m.log, pass);
    NothingReported(services, m.log[pass.read..pass.end]);
    assert m.passes[..0] == [];
    assert Bodies(m.passes) == Bodies(m.passes[..0]) + Body(pass.lines);
  }

  /** A lone error (priority 3) with nothing configured: the cursor is past it, no mail was sent. */
  lemma AnErrorIsMissed()
    ensures var m := Run(map[], [Round([Entry("1", "", "3", "disk failure")], [], Env(true, []), true, false)]);
      && m.log == [Entry("1", "", "3", "disk failure")] && Position(m.log, m.cursor) == 1 && m.mails == []
  {
    hide Run, Position, VerdictOf;
    var e := Entry("1", "", "3", "disk failure");
    assert Utoa(3) == "3";
    GraveIsIgnored("1", 3);
    assert Genuine([e]);
    IgnoredArePassed(map[], Round([e], [], Env(true, []), true, false));
  }

  // ------------------------------------------------------------- the process

  lemma StopsAtOver(services: Services, rounds: seq<Round>, i: nat)
    requires i <= |rounds| && Run(services, rounds[..i]).over
    ensures Run(services, rounds) == Run(services, rounds[..i])
    decreases |rounds| - i
  {
    hide Step;
    if i < |rounds| {
      RunSnoc(services, rounds, i);
      assert Step(services, Run(services, rounds[..i]), rounds[i]) == Run(services, rounds[..i]) by {
        OverIsFinal(services, Run(services, rounds[..i]), rounds[i]);
      }
      StopsAtOver(services, rounds, i + 1);
    } else {
      assert rounds[..i] == rounds;
    }
  }

  lemma OverIsFinal(services: Services, m: Mailer, r: Round)
    requires m.over
    ensures Step(services, m, r) == m
  {
  }

  lemma RunSnoc(services: Services, rounds: seq<Round>, i: nat)
    requires i < |rounds|
    ensures Run(services, rounds[..i + 1]) == Step(services, Run(services, rounds[..i]), rounds[i])
  {
    hide Step;
    assert rounds[..i + 1][..i] == rounds[..i];
  }

  /** main's variables from "Strict-mode" on, and the journal. */
  class Process {
    const j: Journal
    var cursor: string
    var mails: seq<string>
    var over: bool
    ghost var passes: seq<Pass>

    ghost function Now(): Mailer
      reads this, j
    {
      Mailer(j.log, cursor, mails, over, passes)
    }

    ghost predicate Valid()
      reads this, j
    {
      j.Valid()
    }

    constructor ()
      ensures Valid() && Now() == START && fresh(j)
    {
      j := new Journal();
      cursor, mails, over, passes := "", [], false, [];
    }

    /** One turn of main's loop. */
    method Turn(services: Services, r: Round)
      requires Valid() && !over
      modifies this, j
      ensures Valid() && Now() == Step(services, old(Now()), r)
    {
      hide OutcomeOf, PassOf;
      ghost var before := Now();
      j.Append(r.before);
      ghost var pass := PassOf(services, before, r);
      var outcome := j.ReadLines(services, cursor, r.between, r.env);
      assert j.log == Seen(before, r);
      assert outcome == OutcomeOf(services, Heard(before, r), Seen(before, r), before.cursor, r.env);
      if outcome.Panics? {
        over := true;
        return;
      }
      var buf, lastCursor := outcome.buf, outcome.last;
      if outcome.error.StopSignal? {
        over := true;
        return;
      }
      if |buf| == 0 && lastCursor != "" {
        cursor := lastCursor;
        passes := passes + [pass];
        assert mails == before.mails + Body(buf);
      }
      if |buf| > 0 {
        if !r.mailed {
          return;
        }
        LinesComeWithTail(services, before, r);
        cursor := lastCursor;
        mails := mails + [Join(buf, "\n")];
        passes := passes + [pass];
      }
      over := r.quit;
    }

    /** The loop, over the turns the outside gives it. */
    method Loop(services: Services, rounds: seq<Round>)
      requires Valid() && Now() == START
      modifies this, j
      ensures Valid() && Now() == Run(services, rounds)
    {
      hide Step;
      var i := 0;
      while i < |rounds| && !over
        invariant Valid() && i <= |rounds|
        invariant Now() == Run(services, rounds[..i])
      {
        RunSnoc(services, rounds, i);
        Turn(services, rounds[i]);
        i := i + 1;
      }
      if over {
        StopsAtOver(services, rounds, i);
      }
      assert i == |rounds| ==> rounds[..i] == rounds;
    }
  }

  /** ReadLines returns lines without an error only along with the tail's cursor. */
  lemma LinesComeWithTail(services: Services, m: Mailer, r: Round)
    ensures var outcome := OutcomeOf(services, Heard(m, r), Seen(m, r), m.cursor, r.env);
      outcome.Returns? && !outcome.error.StopSignal? && outcome.buf != [] ==> outcome.last != ""
  {
    hide Walk, Reported;
  }
}

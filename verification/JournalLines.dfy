/**
 What the lines of one ReadLines call are, said without its loop: the newest unread entries,
 oldest first, cut by the two limits; and when a call reads everything there is to read.
 */
module JournalLines {
  import opened GoStrings
  import opened JournalReader

  /** The entries a call looks at when the size limit does not stop it. */
  function Window(log: seq<Entry>, cursor: string): seq<Entry> {
    Last(Unread(log, cursor), MAX_ENTRIES)
  }

  /** Nothing but entries happens while the loop runs. */
  predicate Quiet(polls: seq<Poll>) {
    forall i :: 0 <= i < |polls| ==> polls[i].Fine?
  }

  function Size(services: Services, entries: seq<Entry>): nat {
    Total(Reported(services, entries))
  }

  /** Every entry of `entries` that makes the code fail lies behind the size limit. */
  ghost predicate Readable(services: Services, entries: seq<Entry>) {
    forall i :: 0 <= i < |entries| && !Good(services, entries[i]) ==> Size(services, entries[i + 1..]) > MAX_BYTES
  }

  lemma WindowIsLast(log: seq<Entry>, cursor: string)
    ensures Window(log, cursor) == Last(log, |Window(log, cursor)|)
    ensures |Window(log, cursor)| <= |log|
  {
    hide Position;
    var u := Unread(log, cursor);
    if |u| > MAX_ENTRIES {
      assert u[|u| - MAX_ENTRIES..] == log[|log| - MAX_ENTRIES..];
    }
  }

  lemma LastOfLast<T>(s: seq<T>, w: nat, k: nat)
    requires k <= w <= |s|
    ensures Last(s, w)[w - k..] == Last(s, k)
    ensures Last(s, w) == Last(s, w)[..w - k] + Last(s, k)
  {
  }

  lemma SizeGrows(services: Services, log: seq<Entry>, k: nat, w: nat)
    requires k <= w <= |log|
    ensures Size(services, Last(log, k)) <= Size(services, Last(log, w))
  {
    hide Reported, Total;
    LastOfLast(log, w, k);
    ReportedConcat(services, Last(log, w)[..w - k], Last(log, k));
    TotalConcat(Reported(services, Last(log, w)[..w - k]), Reported(services, Last(log, k)));
  }

  lemma CutShort(lines: seq<string>)
    requires Total(lines) <= MAX_BYTES
    ensures Cut(lines) == lines
  {
  }

  lemma {:induction false} CutAt(older: seq<string>, newer: seq<string>)
    requires newer != [] && Total(newer) > MAX_BYTES && Total(newer[1..]) <= MAX_BYTES
    ensures Cut(older + newer) == newer
  {
    if older == [] {
      assert older + newer == newer;
    } else {
      assert (older + newer)[1..] == older[1..] + newer;
      TotalConcat(older[1..], newer);
      CutAt(older[1..], newer);
    }
  }

  /** The code's cut, made while walking back, is the cut of the whole window's lines. */
  lemma CutOfWindow(services: Services, log: seq<Entry>, k: nat, w: nat)
    requires k < w <= |log| && VerdictOf(services, log[|log| - k - 1]).Line?
    requires Size(services, Last(log, k)) <= MAX_BYTES < Size(services, Last(log, k + 1))
    ensures Cut(Reported(services, Last(log, w))) == Reported(services, Last(log, k + 1))
  {
    var lines := Reported(services, Last(log, k + 1));
    OneOlder(services, log, k);
    hide Reported, Cut, VerdictOf, Last;
    var v := VerdictOf(services, log[|log| - k - 1]);
    assert lines[1..] == Reported(services, Last(log, k)) by {
      assert LinesOf(v) == [v.text];
    }
    LastOfLast(log, w, k + 1);
    ReportedConcat(services, Last(log, w)[..w - (k + 1)], Last(log, k + 1));
    CutAt(Reported(services, Last(log, w)[..w - (k + 1)]), lines);
  }

  /** Readable, counted from the newest entry as the loop does. */
  ghost predicate ReadableFrom(services: Services, log: seq<Entry>, w: nat, k: nat)
    requires w <= |log|
  {
    forall m :: k <= m < w && !Good(services, log[|log| - m - 1]) ==> Size(services, Last(log, m)) > MAX_BYTES
  }

  lemma ReadableIsFrom(services: Services, log: seq<Entry>, w: nat)
    requires w <= |log|
    ensures Readable(services, Last(log, w)) <==> ReadableFrom(services, log, w, 0)
  {
    hide Good, Size;
    var window := Last(log, w);
    forall m: nat | m < w
      ensures window[w - m - 1] == log[|log| - m - 1] && window[w - m - 1 + 1..] == Last(log, m)
    {
      LastOfLast(log, w, m);
    }
    if Readable(services, window) {
      forall m: nat | m < w && !Good(services, log[|log| - m - 1])
        ensures Size(services, Last(log, m)) > MAX_BYTES
      {
        var i: nat := w - m - 1;
        assert window[i] == log[|log| - m - 1] && window[i + 1..] == Last(log, m);
      }
    }
    if ReadableFrom(services, log, w, 0) {
      forall i: nat | i < w && !Good(services, window[i])
        ensures Size(services, window[i + 1..]) > MAX_BYTES
      {
        var m: nat := w - i - 1;
        assert w - m - 1 == i && window[i] == log[|log| - m - 1];
        assert window[i + 1..] == Last(log, m);
      }
    }
  }

  /** A turn that looks at an unread entry. */
  lemma Onward(services: Services, log: seq<Entry>, cursor: string, polls: seq<Poll>, k: nat)
    requires k < |log| && k < MAX_ENTRIES && At(polls, k).Fine? && log[|log| - k - 1].cursor != cursor
    requires Size(services, Last(log, k)) <= MAX_BYTES
    ensures var w, e := Walk(services, log, cursor, polls, k), log[|log| - k - 1];
      && (!Good(services, e) ==> w.Failed? || w.Panicked?)
      && (Good(services, e) && Size(services, Last(log, k + 1)) <= MAX_BYTES ==>
           w == Walk(services, log, cursor, polls, k + 1))
      && (Good(services, e) && Size(services, Last(log, k + 1)) > MAX_BYTES ==>
           w == Read(k + 1) && VerdictOf(services, e).Line?)
  {
    hide Reported, Total, VerdictOf, Walk, Last;
    Turn(services, log, cursor, polls, k);
    var v := VerdictOf(services, log[|log| - k - 1]);
    if v.Ignored? {
      NothingAdded(Reported(services, Last(log, k)), v);
    }
  }

  lemma ReadableTurn(services: Services, log: seq<Entry>, w: nat, k: nat)
    requires k < w <= |log|
    ensures Good(services, log[|log| - k - 1]) ==>
      (ReadableFrom(services, log, w, k) <==> ReadableFrom(services, log, w, k + 1))
    ensures !Good(services, log[|log| - k - 1]) && Size(services, Last(log, k)) <= MAX_BYTES ==>
      !ReadableFrom(services, log, w, k)
    ensures Size(services, Last(log, k + 1)) > MAX_BYTES ==> ReadableFrom(services, log, w, k + 1)
  {
    hide Good, Size, Last;
    if Size(services, Last(log, k + 1)) > MAX_BYTES {
      forall m: nat | k + 1 <= m < w
        ensures Size(services, Last(log, m)) > MAX_BYTES
      {
        SizeGrows(services, log, k + 1, m);
      }
    }
  }

  lemma WalkOut(services: Services, log: seq<Entry>, cursor: string, polls: seq<Poll>)
    requires Quiet(polls)
    ensures var w := |Window(log, cursor)|;
      w <= |log| && w <= MAX_ENTRIES && Walk(services, log, cursor, polls, w) == Read(w)
  {
    hide Reported, VerdictOf, Walk, Window;
    var w := |Window(log, cursor)|;
    WindowIsLast(log, cursor);
    WindowEnds(log, cursor);
    if w < MAX_ENTRIES {
      Turn(services, log, cursor, polls, w);
    } else {
      WalkEnds(services, log, cursor, polls);
    }
  }

  lemma {:induction false} WalkIs(services: Services, log: seq<Entry>, cursor: string, polls: seq<Poll>, k: nat)
    requires Quiet(polls)
    requires k <= |Window(log, cursor)| && Size(services, Last(log, k)) <= MAX_BYTES
    ensures k <= |Window(log, cursor)| <= |log|
    ensures var w := Walk(services, log, cursor, polls, k);
      && !w.Stopped?
      && (w.Read? ==> Reported(services, Last(log, w.count)) == Cut(Reported(services, Window(log, cursor))))
      && (w.Read? <==> ReadableFrom(services, log, |Window(log, cursor)|, k))
    decreases MAX_ENTRIES - k
  {
    hide Reported, VerdictOf, Cut, Walk, Window, Good, Last;
    var w := |Window(log, cursor)|;
    WindowIsLast(log, cursor);
    if k == w {
      CutShort(Reported(services, Last(log, w)));
      WalkOut(services, log, cursor, polls);
    } else {
      hide Size, ReadableFrom;
      InWindow(log, cursor, k);
      Onward(services, log, cursor, polls, k);
      ReadableTurn(services, log, w, k);
      if Good(services, log[|log| - k - 1]) {
        if Size(services, Last(log, k + 1)) <= MAX_BYTES {
          WalkIs(services, log, cursor, polls, k + 1);
        } else {
          CutOfWindow(services, log, k, w);
        }
      }
    }
  }

  lemma NothingAdded(lines: seq<string>, v: Verdict)
    requires v.Ignored?
    ensures LinesOf(v) + lines == lines
  {
  }

  lemma InWindow(log: seq<Entry>, cursor: string, k: nat)
    requires k < |Window(log, cursor)|
    ensures k < |log| && k < MAX_ENTRIES && log[|log| - k - 1].cursor != cursor
  {
    hide Position;
  }

  lemma WindowEnds(log: seq<Entry>, cursor: string)
    ensures var w := |Window(log, cursor)|;
      w <= |log| && w <= MAX_ENTRIES && (w < MAX_ENTRIES ==> w == |log| || log[|log| - w - 1].cursor == cursor)
  {
    hide Position;
  }

  /**
   A call that finds something new answers with the selected entries after the cursor among the
   last 1024, oldest first, less the oldest ones where the rest already exceeds the size limit;
   unless an entry it gets to has no usable priority or unit, and then with no lines at all.
   */
  lemma ReadLinesMeans(services: Services, heard: seq<Entry>, log: seq<Entry>, cursor: string, env: Env)
    requires env.opens && Quiet(env.polls)
    requires heard != [] && heard[|heard| - 1].cursor !in {cursor, ""}
    ensures var r := OutcomeOf(services, heard, log, cursor, env);
      if Readable(services, Window(log, cursor)) then
        r == Returns(Cut(Reported(services, Window(log, cursor))), heard[|heard| - 1].cursor, Nil)
      else r in {Returns([], "", Other), Panics}
  {
    hide Walk, Cut, Reported, Good;
    NoLines(services, log);
    WalkIs(services, log, cursor, env.polls, 0);
    WindowIsLast(log, cursor);
    ReadableIsFrom(services, log, |Window(log, cursor)|);
  }

  /** A call reads everything unread exactly when it is within the limits. */
  predicate Fits(services: Services, unread: seq<Entry>) {
    |unread| <= 1024 && (unread != [] ==> Size(services, unread[1..]) <= 512 * 1024)
  }

  lemma {:induction false} WalkStaysUnread(services: Services, log: seq<Entry>, cursor: string, polls: seq<Poll>,
                                           k: nat)
    requires k <= |Unread(log, cursor)| && k <= MAX_ENTRIES
    ensures var w := Walk(services, log, cursor, polls, k);
      (w.Read? || w.Stopped?) ==> w.count <= |Unread(log, cursor)|
    decreases MAX_ENTRIES - k
  {
    hide Reported, Total, VerdictOf, Position, Last;
    if k < MAX_ENTRIES && k < |Unread(log, cursor)| {
      WalkStaysUnread(services, log, cursor, polls, k + 1);
    }
  }

  lemma {:induction false} WalkReaches(services: Services, log: seq<Entry>, cursor: string, polls: seq<Poll>,
                                       k: nat, n: nat, m: nat)
    requires k <= |Unread(log, cursor)| && k <= MAX_ENTRIES && m < |Unread(log, cursor)|
    requires Walk(services, log, cursor, polls, k) == Read(n)
    requires Size(services, Last(log, k)) <= MAX_BYTES
    ensures m < n <==> m < MAX_ENTRIES && Size(services, Last(log, m)) <= MAX_BYTES
    decreases MAX_ENTRIES - k
  {
    var u := |Unread(log, cursor)|;
    UnreadEnds(log, cursor);
    hide Last, Walk, Reported, Total, VerdictOf, Unread, Size, Good;
    if m < k {
      SizeGrows(services, log, m, k);
    } else if k == MAX_ENTRIES {
      WalkEnds(services, log, cursor, polls);
    } else {
      ReadPolls(services, log, cursor, polls, k);
      UnreadAt(log, cursor, k);
      Onward(services, log, cursor, polls, k);
      if Size(services, Last(log, k + 1)) <= MAX_BYTES {
        WalkReaches(services, log, cursor, polls, k + 1, n, m);
      } else if m > k {
        SizeGrows(services, log, k + 1, m);
      }
    }
  }

  /** A call reaches an unread entry exactly when those newer than it are within the limits. */
  lemma ReachesExactly(services: Services, log: seq<Entry>, cursor: string, polls: seq<Poll>, n: nat, m: nat)
    requires Walk(services, log, cursor, polls, 0) == Read(n) && m < |Unread(log, cursor)|
    ensures m < n <==> m < MAX_ENTRIES && Size(services, Last(log, m)) <= MAX_BYTES
  {
    NoLines(services, log);
    WalkReaches(services, log, cursor, polls, 0, n, m);
  }

  lemma ReadPolls(services: Services, log: seq<Entry>, cursor: string, polls: seq<Poll>, k: nat)
    requires k <= |log| && k < MAX_ENTRIES && Walk(services, log, cursor, polls, k).Read?
    ensures At(polls, k).Fine?
  {
    hide Reported, Total, VerdictOf;
  }

  lemma FitsIs(services: Services, log: seq<Entry>, cursor: string)
    ensures var n := |Unread(log, cursor)|;
      && n <= |log|
      && (Fits(services, Unread(log, cursor)) <==>
           n <= MAX_ENTRIES && (n > 0 ==> Size(services, Last(log, n - 1)) <= MAX_BYTES))
  {
    hide Position, Size;
    var u := Unread(log, cursor);
    if u != [] {
      assert u[1..] == Last(log, |u| - 1);
    }
  }

  lemma UnreadEnds(log: seq<Entry>, cursor: string)
    ensures var n := |Unread(log, cursor)|;
      n <= |log| && (n < |log| ==> log[|log| - n - 1].cursor == cursor)
  {
    hide Position;
  }

  lemma UnreadAt(log: seq<Entry>, cursor: string, k: nat)
    requires k < |Unread(log, cursor)|
    ensures k < |log| && log[|log| - k - 1].cursor != cursor
  {
    hide Position;
  }

  /** How many entries a call has read when it ends well, and when these are all there are. */
  lemma ReadsAllExactly(services: Services, log: seq<Entry>, cursor: string, polls: seq<Poll>, n: nat)
    requires Walk(services, log, cursor, polls, 0) == Read(n)
    ensures n <= |Unread(log, cursor)|
    ensures n == |Unread(log, cursor)| <==> Fits(services, Unread(log, cursor))
  {
    WalkStaysUnread(services, log, cursor, polls, 0);
    FitsIs(services, log, cursor);
    hide Walk, Unread, Fits, Size;
    if |Unread(log, cursor)| > 0 {
      ReachesExactly(services, log, cursor, polls, n, |Unread(log, cursor)| - 1);
    }
  }

  // --------------------------------------------------- how else a call can end

  /** The newest m entries are unread, usable and within the size limit, and nothing disturbs the loop there. */
  ghost predicate GetsTo(services: Services, log: seq<Entry>, cursor: string, polls: seq<Poll>, m: nat) {
    && m <= |Unread(log, cursor)| && m <= MAX_ENTRIES && |Unread(log, cursor)| <= |log|
    && (forall j :: 0 <= j < m ==> At(polls, j).Fine? && Good(services, log[|log| - j - 1]))
    && Size(services, Last(log, m)) <= MAX_BYTES
  }

  lemma {:induction false} WalkGetsTo(services: Services, log: seq<Entry>, cursor: string, polls: seq<Poll>, k: nat,
                                      m: nat)
    requires GetsTo(services, log, cursor, polls, m) && k <= m
    ensures Walk(services, log, cursor, polls, k) == Walk(services, log, cursor, polls, m)
    decreases m - k
  {
    if k < m {
      hide Walk, Good, Size, Last, Unread;
      UnreadAt(log, cursor, k);
      SizeGrows(services, log, k, m);
      SizeGrows(services, log, k + 1, m);
      Onward(services, log, cursor, polls, k);
      WalkGetsTo(services, log, cursor, polls, k + 1, m);
    }
  }

  /**
   A call that is interrupted, or meets an entry it cannot use, after m entries: a stop signal
   gives what was collected and no cursor, a failing library call or a priority that is no number
   gives nothing but an error, and a unit without a dot panics.
   */
  lemma InterruptedAt(services: Services, heard: seq<Entry>, log: seq<Entry>, cursor: string, env: Env, m: nat)
    requires env.opens && heard != [] && heard[|heard| - 1].cursor !in {cursor, ""}
    requires GetsTo(services, log, cursor, env.polls, m) && m < MAX_ENTRIES
    ensures var r := OutcomeOf(services, heard, log, cursor, env);
      && (At(env.polls, m).Stop? ==> r == Returns(Reported(services, Last(log, m)), "", StopSignal))
      && (At(env.polls, m).Fault? ==> r == Returns([], "", Other))
      && (At(env.polls, m).Fine? && m < |Unread(log, cursor)| ==>
            var v := VerdictOf(services, log[|log| - m - 1]);
            && (v.BadPriority? ==> r == Returns([], "", Other))
            && (v.BadUnit? ==> r == Panics))
  {
    hide Walk, VerdictOf, Reported, Last;
    WalkGetsTo(services, log, cursor, env.polls, 0, m);
    if m < |Unread(log, cursor)| {
      UnreadAt(log, cursor, m);
    }
    hide Unread, GetsTo;
    Turn(services, log, cursor, env.polls, m);
  }

  /** Before the loop: a journal that does not open, an empty one, and one with nothing new. */
  lemma NothingToWalk(services: Services, heard: seq<Entry>, log: seq<Entry>, cursor: string, env: Env)
    ensures var r := OutcomeOf(services, heard, log, cursor, env);
      && (!env.opens ==> r == Returns([], "", Other))
      && (env.opens && heard == [] ==> r == Panics)
      && (env.opens && heard != [] && heard[|heard| - 1].cursor == cursor ==> r == Returns([], "", Nil))
  {
    hide Walk, Reported;
  }
}

/**
 contrib/deltajournal/journal: HasLog and ReadLines over an append-only journal, and what the
 lines they return are.

 The journal library is reduced to a log and a read head. Everything that happens outside the
 process while ReadLines runs (entries arriving, a stop signal, a library call failing) is a
 parameter.
 */
module JournalReader {
  import opened GoStrings

  datatype Entry = Entry(cursor: string, unit: string, priority: string, message: string)

  /** config.ServiceFilter, and the Services table of the configuration. */
  datatype Service = Service(severity: int, filters: seq<string>)
  type Services = map<string, Service>

  const MAX_ENTRIES: nat := 1024
  const MAX_BYTES: nat := 512 * 1024

  const BUILT_IN := Service(5, [])

  // ------------------------------------------------------------ one entry

  /** The first result of strings.Cut at a one-byte separator. */
  function Before(s: string, c: char): (r: string)
    ensures c !in r
    ensures if c in s then r + [c] <= s else r == s
  {
    var i := IndexByte(s, c);
    if i < 0 then s else s[..i]
  }

  /** The unit without its suffix and instance; None where the code's slice bounds panic. */
  function BaseUnit(unit: string): Option<string> {
    if unit == "" then Some("")
    else
      var dot := IndexByte(unit, '.');
      if dot < 0 then None else Some(Before(unit[..dot], '@'))
  }

  /** The name a line shows, and the settings that apply to it. */
  datatype Rule = Rule(unit: string, service: Service)

  /** The first configured of: the unit, the unit before its dash, "default", the built-in. */
  function RuleOf(services: Services, unit: string): Rule {
    var subunit := Before(unit, '-');
    if unit in services then Rule(unit, services[unit])
    else if subunit in services then Rule(subunit, services[subunit])
    else if "default" in services then Rule(unit, services["default"])
    else Rule(unit, BUILT_IN)
  }

  /** The code's way to the same answer: later settings overwrite earlier ones. */
  method FindRule(services: Services, name: string) returns (unit: string, severity: int, filters: seq<string>)
    ensures Rule(unit, Service(severity, filters)) == RuleOf(services, name)
  {
    unit, severity, filters := name, 5, [];
    if "default" in services {
      severity := services["default"].severity;
      filters := services["default"].filters;
    }
    var hasCustom := false;
    if unit in services {
      severity := services[unit].severity;
      filters := services[unit].filters;
      hasCustom := true;
    }
    if !hasCustom {
      var subunit := Before(unit, '-');
      if subunit in services {
        unit := subunit;
        severity := services[subunit].severity;
        filters := services[subunit].filters;
      }
    }
  }

  datatype Verdict = Ignored | Line(text: string) | BadPriority | BadUnit

  /** The entry is reported unless it is less than the severity or matches a filter. */
  function Judged(rule: Rule, prio: int, message: string): (v: Verdict)
    ensures v.Ignored? || v.Line?
  {
    var msg := TrimSpace(message);
    if prio < rule.service.severity || (exists f :: f in rule.service.filters && Contains(msg, f)) then Ignored
    else Line("[" + rule.unit + "!" + Itoa(prio) + "] " + msg)
  }

  function VerdictOf(services: Services, e: Entry): Verdict {
    match BaseUnit(e.unit)
    case None => BadUnit
    case Some(base) =>
      var rule := RuleOf(services, base);
      if e.priority == "" then Judged(rule, rule.service.severity, e.message)
      else
        match ParseInt(e.priority)
        case None => BadPriority
        case Some(prio) => Judged(rule, prio, e.message)
  }

  predicate Good(services: Services, e: Entry) {
    VerdictOf(services, e).Ignored? || VerdictOf(services, e).Line?
  }

  /** The part of the loop body that looks at one entry. */
  method Judge(services: Services, d: Entry) returns (v: Verdict)
    ensures v == VerdictOf(services, d)
  {
    hide TrimSpace, Contains, ParseInt, RuleOf, Itoa;
    var unit := d.unit;
    if |unit| > 0 {
      var dot := IndexByte(unit, '.');
      if dot < 0 {
        return BadUnit;
      }
      unit := Before(unit[0..dot], '@');
      assert d.unit[0..dot] == d.unit[..dot];
    }
    assert BaseUnit(d.unit) == Some(unit);
    ghost var rule := RuleOf(services, unit);
    var shown, severity, filters := FindRule(services, unit);
    var prio := severity;
    if d.priority != "" {
      var parsed := ParseInt(d.priority);
      if parsed.None? {
        return BadPriority;
      }
      prio := parsed.value;
    }
    if prio < severity {
      return Ignored;
    }
    var skip := false;
    var msg := TrimSpace(d.message);
    var i := 0;
    while i < |filters| && !skip
      invariant i <= |filters|
      invariant skip <==> exists k :: 0 <= k < i && Contains(msg, filters[k])
    {
      if Contains(msg, filters[i]) {
        skip := true;
      }
      i := i + 1;
    }
    if skip {
      var k :| 0 <= k < i && Contains(msg, filters[k]);
      assert filters[k] in rule.service.filters;
      return Ignored;
    }
    v := Line("[" + shown + "!" + Itoa(prio) + "] " + msg);
  }

  // ------------------------------------------- which settings, and what is shown

  /** The unit, its part before the dash and "default", in this order. */
  function Candidates(unit: string): seq<string> {
    [unit, Before(unit, '-'), "default"]
  }

  /** The settings are those of the first candidate that has any, or severity 5 and no filters. */
  lemma FirstConfigured(services: Services, unit: string, i: nat)
    requires i < 3 && Candidates(unit)[i] in services
    requires forall j :: 0 <= j < i ==> Candidates(unit)[j] !in services
    ensures RuleOf(services, unit).service == services[Candidates(unit)[i]]
    ensures RuleOf(services, unit).unit == if i == 1 then Before(unit, '-') else unit
  {
    assert Candidates(unit)[0] == unit && Candidates(unit)[1] == Before(unit, '-') && Candidates(unit)[2] == "default";
  }

  lemma NothingConfigured(services: Services, unit: string)
    requires forall j :: 0 <= j < 3 ==> Candidates(unit)[j] !in services
    ensures RuleOf(services, unit) == Rule(unit, Service(5, []))
  {
    assert Candidates(unit)[0] == unit && Candidates(unit)[1] == Before(unit, '-') && Candidates(unit)[2] == "default";
  }

  lemma BeforeIs(pre: string, c: char, post: string)
    requires c !in pre
    ensures Before(pre + [c] + post, c) == pre
  {
    hide IndexByte;
    CutAt(pre, c, post);
  }

  /** "name.service" and "name@instance.service" are the unit "name"; without a dot there is none. */
  lemma UnitNames(name: string, instance: string, suffix: string)
    requires name != "" && '.' !in name && '@' !in name && '.' !in instance
    ensures BaseUnit(name + "." + suffix) == Some(name)
    ensures BaseUnit(name + "@" + instance + "." + suffix) == Some(name)
    ensures BaseUnit(name).None? && BaseUnit("") == Some("")
  {
    hide IndexByte, Before;
    CutAt(name, '.', suffix);
    var full := name + "@" + instance;
    CutAt(full, '.', suffix);
    assert name + "." + suffix == name + ['.'] + suffix;
    assert full + "." + suffix == full + ['.'] + suffix;
    assert full == name + ['@'] + instance;
    BeforeIs(name, '@', instance);
    assert Before(name, '@') == name;
  }

  /** The number a reported entry shows: its own, or the severity for want of one. */
  function ShownPriority(services: Services, base: string, e: Entry): Option<int> {
    if e.priority == "" then Some(RuleOf(services, base).service.severity) else ParseInt(e.priority)
  }

  /** A line as its reader takes it apart: up to the first '!', up to the next ']', and the rest. */
  function ReadLine(text: string): Option<(string, int, string)> {
    var i := IndexByte(text, '!');
    if i < 1 || text[0] != '[' then None
    else
      var rest := text[i + 1..];
      var j := IndexByte(rest, ']');
      if j < 0 || j + 1 >= |rest| || rest[j + 1] != ' ' || ParseInt(rest[..j]).None? then None
      else Some((text[1..i], ParseInt(rest[..j]).value, rest[j + 2..]))
  }

  /** A line shows the unit, the priority and the trimmed message of its entry, and they can be read back. */
  lemma LineReadsBack(services: Services, e: Entry)
    requires VerdictOf(services, e).Line?
    ensures var base := BaseUnit(e.unit).value;
      var shown, prio := RuleOf(services, base).unit, ShownPriority(services, base, e);
      && BaseUnit(e.unit).Some? && prio.Some?
      && ('!' !in shown && IsInt64(prio.value) ==>
            ReadLine(VerdictOf(services, e).text) == Some((shown, prio.value, TrimSpace(e.message))))
  {
    hide TrimSpace, RuleOf, BaseUnit, ReadLine, Contains, Itoa, ParseInt;
    var base := BaseUnit(e.unit).value;
    var shown, prio := RuleOf(services, base).unit, ShownPriority(services, base, e);
    if '!' !in shown && IsInt64(prio.value) {
      ReadsLine(shown, prio.value, TrimSpace(e.message));
    }
  }

  lemma ReadsLine(unit: string, prio: int, msg: string)
    requires '!' !in unit && IsInt64(prio)
    ensures ReadLine("[" + unit + "!" + Itoa(prio) + "] " + msg) == Some((unit, prio, msg))
  {
    hide IndexByte, ParseInt, Itoa;
    var text, rest := "[" + unit + "!" + Itoa(prio) + "] " + msg, Itoa(prio) + "] " + msg;
    assert text == ("[" + unit) + ['!'] + rest;
    CutAt("[" + unit, '!', rest);
    ParseIntOfItoa(prio);
    NoBracket(prio);
    assert rest == Itoa(prio) + [']'] + (" " + msg);
    CutAt(Itoa(prio), ']', " " + msg);
  }

  lemma NoBracket(n: int)
    ensures ']' !in Itoa(n)
  {
    UtoaIsDigits(if n < 0 then -n else n);
    hide Utoa;
  }

  /** Some filter of the rule that applies to the unit is part of the message. */
  predicate Filtered(services: Services, base: string, message: string) {
    exists f :: f in RuleOf(services, base).service.filters && Contains(TrimSpace(message), f)
  }

  /**
   What is reported, for every entry with a usable unit: what no filter matches and has either no
   priority or a number that is not below the severity. Syslog gives the graver messages the
   lower numbers, so of two such entries the graver one is the one that can be left out.
   */
  lemma ReportedExactly(services: Services, e: Entry)
    requires BaseUnit(e.unit).Some?
    ensures var base := BaseUnit(e.unit).value;
      VerdictOf(services, e).Line? <==>
        && !Filtered(services, base, e.message)
        && (e.priority != "" ==>
              ParseInt(e.priority).Some? && ParseInt(e.priority).value >= RuleOf(services, base).service.severity)
    ensures var base := BaseUnit(e.unit).value;
      VerdictOf(services, e).Ignored? <==>
        && (e.priority == "" || ParseInt(e.priority).Some?)
        && (Filtered(services, base, e.message)
            || (e.priority != "" && ParseInt(e.priority).value < RuleOf(services, base).service.severity))
  {
    hide TrimSpace, ParseInt, Contains, RuleOf, Itoa;
  }

  /** An entry cannot be used exactly when its unit has no dot, or its priority is text but no int64. */
  lemma Unusable(services: Services, e: Entry)
    ensures VerdictOf(services, e).BadUnit? <==> e.unit != "" && '.' !in e.unit
    ensures VerdictOf(services, e).BadPriority? <==>
      (e.unit == "" || '.' in e.unit) && e.priority != "" && ParseInt(e.priority).None?
  {
    hide TrimSpace, ParseInt, Contains, RuleOf, Itoa;
  }

  /** A message of priority 0 to 4 (emergency to warning) when nothing is configured. */
  function Grave(cursor: string, priority: nat): Entry {
    Entry(cursor, "", Utoa(priority), "disk failure")
  }

  lemma GraveIsIgnored(cursor: string, priority: nat)
    requires priority <= 4
    ensures VerdictOf(map[], Grave(cursor, priority)).Ignored?
  {
    hide TrimSpace, ParseInt, Contains, Itoa, Utoa;
    DigitsValueOfUtoa(priority);
    ParseIntOfDigits(Utoa(priority));
    ReportedExactly(map[], Grave(cursor, priority));
  }

  // ----------------------------------------------------------- many entries

  function LinesOf(v: Verdict): (lines: seq<string>)
    ensures |lines| <= 1
  {
    if v.Line? then [v.text] else []
  }

  /** The formatted lines of the selected entries, oldest first. */
  function Reported(services: Services, entries: seq<Entry>): seq<string> {
    if entries == [] then [] else LinesOf(VerdictOf(services, entries[0])) + Reported(services, entries[1..])
  }

  function Total(lines: seq<string>): nat {
    if lines == [] then 0 else |lines[0]| + Total(lines[1..])
  }

  lemma {:induction false} ReportedConcat(services: Services, a: seq<Entry>, b: seq<Entry>)
    ensures Reported(services, a + b) == Reported(services, a) + Reported(services, b)
  {
    hide VerdictOf;
    if a == [] {
      assert a + b == b;
    } else {
      ReportedConcat(services, a[1..], b);
      assert (a + b)[1..] == a[1..] + b;
      ConcatAssoc(LinesOf(VerdictOf(services, a[0])), Reported(services, a[1..]), Reported(services, b));
    }
  }

  lemma {:induction false} TotalConcat(a: seq<string>, b: seq<string>)
    ensures Total(a + b) == Total(a) + Total(b)
  {
    if a == [] {
      assert a + b == b;
    } else {
      TotalConcat(a[1..], b);
      assert (a + b)[1..] == a[1..] + b;
    }
  }

  /** A selected entry's line is among the lines reported for any stretch that contains it. */
  lemma {:induction false} LineIsReported(services: Services, entries: seq<Entry>, p: nat)
    requires p < |entries| && VerdictOf(services, entries[p]).Line?
    ensures VerdictOf(services, entries[p]).text in Reported(services, entries)
  {
    hide VerdictOf;
    if p == 0 {
      assert LinesOf(VerdictOf(services, entries[0]))[0] == VerdictOf(services, entries[0]).text;
    } else {
      LineIsReported(services, entries[1..], p - 1);
    }
  }

  /** How many entries there are up to and including the last one with this cursor. */
  function Position(log: seq<Entry>, cursor: string): (p: nat)
    ensures p <= |log|
    ensures p > 0 ==> log[p - 1].cursor == cursor
    ensures forall i :: p <= i < |log| ==> log[i].cursor != cursor
    decreases |log|
  {
    if log == [] || log[|log| - 1].cursor == cursor then |log| else Position(log[..|log| - 1], cursor)
  }

  /** The entries after the last one with the given cursor; all of them where there is none. */
  function Unread(log: seq<Entry>, cursor: string): seq<Entry> {
    log[Position(log, cursor)..]
  }

  /** The newest n elements. */
  function Last<T>(s: seq<T>, n: nat): (t: seq<T>)
    ensures |t| == if n <= |s| then n else |s|
  {
    if n <= |s| then s[|s| - n..] else s
  }

  /** Drops the oldest lines while what is left still exceeds the size limit. */
  function Cut(lines: seq<string>): (r: seq<string>)
    ensures |r| <= |lines| && r == lines[|lines| - |r|..]
    ensures r != [] ==> Total(r[1..]) <= MAX_BYTES
    ensures |r| < |lines| ==> Total(r) > MAX_BYTES
  {
    if lines != [] && Total(lines[1..]) > MAX_BYTES then Cut(lines[1..]) else lines
  }

  // ------------------------------------------------------------ the walk back

  /** What the outside does at one turn of the loop: nothing, a stop signal, a library error. */
  datatype Poll = Fine | Stop | Fault

  function At(polls: seq<Poll>, i: nat): Poll {
    if i < |polls| then polls[i] else Fine
  }

  /** How the loop ends, and how many entries it has looked at by then. */
  datatype Ending = Read(count: nat) | Stopped(count: nat) | Failed | Panicked

  /** The loop of ReadLines once it has looked at the newest n entries. */
  function Walk(services: Services, log: seq<Entry>, cursor: string, polls: seq<Poll>, n: nat): (w: Ending)
    requires n <= |log| && n <= MAX_ENTRIES
    ensures w.Read? || w.Stopped? ==> n <= w.count <= |log| && w.count <= MAX_ENTRIES
    decreases MAX_ENTRIES - n
  {
    if n == MAX_ENTRIES then Read(n)
    else if At(polls, n).Stop? then Stopped(n)
    else if At(polls, n).Fault? then Failed
    else if n == |log| then Read(n)
    else
      var e := log[|log| - n - 1];
      if e.cursor == cursor then Read(n)
      else
        match VerdictOf(services, e)
        case BadUnit => Panicked
        case BadPriority => Failed
        case Ignored => Walk(services, log, cursor, polls, n + 1)
        case Line(_) =>
          if Total(Reported(services, Last(log, n + 1))) > MAX_BYTES then Read(n + 1)
          else Walk(services, log, cursor, polls, n + 1)
  }

  datatype Error = Nil | StopSignal | Other

  /** What a call of ReadLines gives its caller, or that it panics. */
  datatype Outcome = Returns(buf: seq<string>, last: string, error: Error) | Panics

  /** Whether the journal opens and seeks, and what happens during the loop. */
  datatype Env = Env(opens: bool, polls: seq<Poll>)

  /** HasLog saw `heard`, the loop walks back over `log`. */
  function OutcomeOf(services: Services, heard: seq<Entry>, log: seq<Entry>, cursor: string, env: Env): Outcome {
    if !env.opens then Returns([], "", Other)
    else if heard == [] then Panics
    else
      var tail := heard[|heard| - 1].cursor;
      if tail == cursor || tail == "" then Returns([], "", Nil)
      else
        match Walk(services, log, cursor, env.polls, 0)
        case Read(n) => Returns(Reported(services, Last(log, n)), tail, Nil)
        case Stopped(n) => Returns(Reported(services, Last(log, n)), "", StopSignal)
        case Failed => Returns([], "", Other)
        case Panicked => Panics
  }

  /** One turn of the loop, spelled out. */
  lemma Turn(services: Services, log: seq<Entry>, cursor: string, polls: seq<Poll>, n: nat)
    requires n <= |log| && n < MAX_ENTRIES
    ensures var w := Walk(services, log, cursor, polls, n);
      if At(polls, n).Stop? then w == Stopped(n)
      else if At(polls, n).Fault? then w == Failed
      else if n == |log| || log[|log| - n - 1].cursor == cursor then w == Read(n)
      else
        var v := VerdictOf(services, log[|log| - n - 1]);
        if v.BadUnit? then w == Panicked
        else if v.BadPriority? then w == Failed
        else
          var lines := LinesOf(v) + Reported(services, Last(log, n));
          && lines == Reported(services, Last(log, n + 1))
          && w == if v.Line? && Total(lines) > MAX_BYTES then Read(n + 1)
                  else Walk(services, log, cursor, polls, n + 1)
  {
    if n < |log| {
      OneOlder(services, log, n);
    }
  }

  /** The next older entry joins the lines at the front. */
  lemma OneOlder(services: Services, log: seq<Entry>, n: nat)
    requires n < |log|
    ensures Reported(services, Last(log, n + 1))
         == LinesOf(VerdictOf(services, log[|log| - n - 1])) + Reported(services, Last(log, n))
  {
    hide VerdictOf;
    assert Last(log, n + 1)[1..] == Last(log, n);
  }

  /** The library's journal: the entries so far, and how many of them lie before the head. */
  class Journal {
    var log: seq<Entry>
    var head: nat

    ghost predicate Valid()
      reads this
    {
      head <= |log|
    }

    constructor ()
      ensures Valid() && log == []
    {
      log, head := [], 0;
    }

    /** Another process logs. */
    method Append(entries: seq<Entry>)
      requires Valid()
      modifies this
      ensures Valid() && log == old(log) + entries && head == old(head)
    {
      log := log + entries;
    }

    method SeekTail()
      requires Valid()
      modifies this`head
      ensures Valid() && head == |log|
    {
      head := |log|;
    }

    /** One entry back; 0 at the start of the journal. */
    method Previous() returns (r: nat)
      requires Valid()
      modifies this`head
      ensures Valid() && r == (if old(head) == 0 then 0 else 1) && head == old(head) - r
    {
      if head == 0 {
        return 0;
      }
      head := head - 1;
      r := 1;
    }

    function GetEntry(): Entry
      requires head < |log|
      reads this
    {
      log[head]
    }

    /** The newest entry's cursor, "" where it is the previous one; None where it panics. */
    method HasLog(prevCursor: string) returns (last: Option<string>)
      requires Valid()
      modifies this`head
      ensures Valid()
      ensures last == if log == [] then None
                      else if log[|log| - 1].cursor == prevCursor then Some("")
                      else Some(log[|log| - 1].cursor)
    {
      SeekTail();
      var r := Previous();
      if r == 0 {
        return None;
      }
      var d := GetEntry();
      if d.cursor == prevCursor {
        return Some("");
      }
      last := Some(d.cursor);
    }

    /** ReadLines, while `arriving` is logged between HasLog and the second SeekTail. */
    method ReadLines(services: Services, cursor: string, arriving: seq<Entry>, env: Env) returns (r: Outcome)
      requires Valid()
      modifies this
      ensures Valid() && log == old(log) + arriving
      ensures r == OutcomeOf(services, old(log), log, cursor, env)
    {
      hide VerdictOf, Reported, Total, Walk, Last;
      if !env.opens {
        Append(arriving);
        return Returns([], "", Other);
      }
      var lastCursor := HasLog(cursor);
      Append(arriving);
      if lastCursor.None? {
        return Panics;
      }
      if lastCursor.value == "" {
        return Returns([], "", Nil);
      }
      SeekTail();
      var buf: seq<string>, buflen, i := [], 0, 0;
      NoLines(services, log);
      ghost var whole := Walk(services, log, cursor, env.polls, 0);
      ghost var seen := 0;
      while i < MAX_ENTRIES
        invariant Valid() && log == old(log) + arriving
        invariant i <= MAX_ENTRIES && head == |log| - i
        invariant buf == Reported(services, Last(log, i)) && buflen == Total(buf)
        invariant Walk(services, log, cursor, env.polls, i) == whole
        invariant seen == i
      {
        Turn(services, log, cursor, env.polls, i);
        if At(env.polls, i).Stop? {
          return Returns(buf, "", StopSignal);
        }
        if At(env.polls, i).Fault? {
          return Returns([], "", Other);
        }
        var k := Previous();
        if k == 0 {
          break;
        }
        var d := GetEntry();
        if d.cursor == cursor {
          break;
        }
        var v := Judge(services, d);
        match v {
          case BadUnit => return Panics;
          case BadPriority => return Returns([], "", Other);
          case Ignored =>
            assert LinesOf(v) + buf == buf;
          case Line(line) =>
            assert LinesOf(v) == [line];
            TotalOfCons(line, buf);
            buf := [line] + buf;
            buflen := buflen + |line|;
            if buflen > MAX_BYTES {
              seen := i + 1;
              break;
            }
        }
        i, seen := i + 1, i + 1;
      }
      WalkEnds(services, log, cursor, env.polls);
      assert whole == Read(seen) && buf == Reported(services, Last(log, seen));
      r := Returns(buf, lastCursor.value, Nil);
    }
  }

  lemma WalkEnds(services: Services, log: seq<Entry>, cursor: string, polls: seq<Poll>)
    ensures |log| >= MAX_ENTRIES ==> Walk(services, log, cursor, polls, MAX_ENTRIES) == Read(MAX_ENTRIES)
  {
  }

  lemma NoLines(services: Services, log: seq<Entry>)
    ensures Reported(services, Last(log, 0)) == [] && Total([]) == 0
  {
  }

  lemma TotalOfCons(line: string, lines: seq<string>)
    ensures Total([line] + lines) == |line| + Total(lines)
  {
    assert ([line] + lines)[1..] == lines;
  }
}

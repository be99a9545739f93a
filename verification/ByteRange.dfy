/**
 Byte ranges of fileserver.go: the Range header parser, its meaning under section 2.1 of
 RFC 7233, and the printed form of a range.
 */
module ByteRange {
  import opened GoStrings

  /** A content size: a non-negative int64. */
  type Size = n: int | 0 <= n <= MAX_INT64

  datatype HttpRange = HttpRange(start: int, length: int) {
    predicate InBounds(size: Size) {
      0 <= start && 0 <= length && start + length <= size
    }

    predicate Covers(k: int) {
      start <= k < start + length
    }

    /** "first-last", the part of a Content-Range that a Range header may repeat. */
    function FirstLast(): string {
      Itoa(start) + "-" + Itoa(Wrap64(start + length - 1))
    }

    function ContentRange(size: Size): string {
      "bytes " + FirstLast() + "/" + Itoa(size)
    }
  }

  datatype Parsed = Ranges(ranges: seq<HttpRange>) | Invalid | NoOverlap

  // ------------------------------------------- byte-range-specs and their meaning

  /** A byte-range-spec or suffix-byte-range-spec (section 2.1 of RFC 7233). */
  datatype ByteSpec = FromTo(first: int, last: int) | From(first: int) | Suffix(n: int) {
    /** The spec asks for byte `k` of a representation of `size` bytes. */
    predicate Selects(size: Size, k: int) {
      0 <= k < size &&
      match this
      case FromTo(first, last) => first <= k <= last
      case From(first) => first <= k
      case Suffix(n) => size - n <= k
    }

    predicate InRange() {
      if Suffix? then IsInt64(n) else first >= 0 && (FromTo? ==> first <= last)
    }

    /** What the standard's grammar gives: numbers of digits, in order. */
    predicate Plain() {
      if Suffix? then n >= 0 else first >= 0 && (FromTo? ==> first <= last)
    }

    predicate FitsInt64() {
      match this
      case FromTo(_, last) => last <= MAX_INT64
      case From(first) => first <= MAX_INT64
      case Suffix(n) => n <= MAX_INT64
    }

    /** Satisfiable by section 2.1: it begins inside, or is a suffix of a non-zero length. */
    predicate Satisfiable(size: Size) {
      if Suffix? then n > 0 else first < size
    }

    /** The bytes section 2.1 lets a satisfiable spec ask for. */
    function Asks(size: Size): HttpRange {
      match this
      case FromTo(first, last) => HttpRange(first, (if last < size then last + 1 else size) - first)
      case From(first) => HttpRange(first, size - first)
      case Suffix(n) => if n < size then HttpRange(size - n, n) else HttpRange(0, size)
    }

    /** Suffix specs are always kept; the others when their first byte exists. */
    predicate Kept(size: Size) {
      Suffix? || first < size
    }

    /** The range that Go's int64 arithmetic computes for a kept spec. */
    function Resolve(size: Size): (r: HttpRange)
      requires InRange() && Kept(size)
    {
      match this
      case FromTo(first, last) => HttpRange(first, (if last >= size then size - 1 else last) - first + 1)
      case From(first) => HttpRange(first, size - first)
      case Suffix(n) =>
        SuffixRange(if n > size then size else n, size)
    }
  }

  /** The last `n` bytes, in int64 arithmetic. */
  function SuffixRange(n: int, size: Size): (r: HttpRange)
    requires IsInt64(n) && n <= size
    ensures n >= 0 ==> r == HttpRange(size - n, n)
    ensures n < 0 ==> r.length == n
  {
    var start := Wrap64(size - n);
    HttpRange(start, Wrap64(size - start))
  }

  /** The text before and after the first dash of a trimmed piece. */
  function Ends(piece: string): (ends: Option<(string, string)>) {
    var ra := TrimSpace(piece);
    var dash := IndexByte(ra, '-');
    if dash < 0 then None else Some((TrimSpace(ra[..dash]), TrimSpace(ra[dash + 1..])))
  }

  /** The spec a piece denotes; None when it is malformed. Does not depend on the size. */
  function ReadSpec(piece: string): (spec: Option<ByteSpec>)
    ensures spec.Some? ==> spec.value.InRange()
  {
    var ends := Ends(piece);
    if ends.None? then None else
    var (start, end) := ends.value;
    var first, last := ParseInt(start), ParseInt(end);
    if start == "" then (if last.None? then None else Some(Suffix(last.value)))
    else if first.None? || first.value < 0 then None
    else if end == "" then Some(From(first.value))
    else if last.None? || first.value > last.value then None
    else Some(FromTo(first.value, last.value))
  }

  predicate Blank(piece: string) {
    TrimSpace(piece) == ""
  }

  /** The first position is readable but not below `size`, so the end is never looked at. */
  predicate StartsPastEnd(piece: string, size: Size) {
    var ends := Ends(piece);
    && ends.Some?
    && ends.value.0 != ""
    && var first := ParseInt(ends.value.0); first.Some? && first.value >= 0 && first.value >= size
  }

  /** What one piece does to the parse: nothing, end it, be left out, or add a range. */
  datatype Turn = Skip | Reject | Drop | Keep(r: HttpRange)

  function TurnOf(piece: string, size: Size): (t: Turn) {
    if Blank(piece) then Skip
    else if StartsPastEnd(piece, size) then Drop
    else
      var spec := ReadSpec(piece);
      if spec.None? then Reject
      else if spec.value.Kept(size) then Keep(spec.value.Resolve(size)) else Drop
  }

  lemma KeptTurn(piece: string, size: Size, spec: ByteSpec, r: HttpRange)
    requires !Blank(piece) && !StartsPastEnd(piece, size)
    requires ReadSpec(piece) == Some(spec) && spec.Kept(size) && spec.Resolve(size) == r
    ensures TurnOf(piece, size) == Keep(r)
  {
  }

  function Turns(pieces: seq<string>, size: Size): (turns: seq<Turn>)
    ensures |turns| == |pieces|
    ensures forall i :: 0 <= i < |turns| ==> turns[i] == TurnOf(pieces[i], size)
  {
    seq(|pieces|, i requires 0 <= i < |pieces| => TurnOf(pieces[i], size))
  }

  function Keeps(turns: seq<Turn>): seq<HttpRange> {
    if turns == [] then []
    else
      var (most, last) := (Keeps(turns[..|turns| - 1]), turns[|turns| - 1]);
      if last.Keep? then most + [last.r] else most
  }

  lemma NothingKept()
    ensures Keeps([]) == []
  {
  }

  lemma OneMoreTurn(turns: seq<Turn>, idx: nat)
    requires idx < |turns|
    ensures Keeps(turns[..idx + 1]) ==
            if turns[idx].Keep? then Keeps(turns[..idx]) + [turns[idx].r] else Keeps(turns[..idx])
    ensures Drop in turns[..idx + 1] <==> Drop in turns[..idx] || turns[idx] == Drop
    ensures Reject in turns[..idx + 1] <==> Reject in turns[..idx] || turns[idx] == Reject
  {
    TakeStep(turns, idx);
  }

  function Verdict(turns: seq<Turn>): Parsed {
    if Reject in turns then Invalid
    else if Drop in turns && Keeps(turns) == [] then NoOverlap
    else Ranges(Keeps(turns))
  }

  function Pieces(header: string): seq<string>
    requires HasPrefix(header, "bytes=")
  {
    Split(header[6..], ',')
  }

  /** What a Range header means for content of `size` bytes. */
  function ParsedHeader(header: string, size: Size): Parsed {
    if header == "" then Ranges([])
    else if !HasPrefix(header, "bytes=") then Invalid
    else Verdict(Turns(Pieces(header), size))
  }

  // ---------------------------------------------------------------- the parser

  /** fileserver.go's parseRange, as the loop over the pieces it is. */
  method ParseRange(s: string, size: Size) returns (result: Parsed)
    ensures result == ParsedHeader(s, size)
  {
    hide TrimSpace, IndexByte, ParseInt, Keeps, Split;
    if s == "" {
      return Ranges([]);
    }
    if !HasPrefix(s, "bytes=") {
      return Invalid;
    }
    var ranges: seq<HttpRange> := [];
    var noOverlap := false;
    var pieces := Split(s[6..], ',');
    ghost var turns := Turns(pieces, size);
    NothingKept();
    assert turns[..0] == [];
    for idx := 0 to |pieces|
      invariant ranges == Keeps(turns[..idx])
      invariant noOverlap <==> Drop in turns[..idx]
      invariant Reject !in turns[..idx]
    {
      OneMoreTurn(turns, idx);
      var piece := pieces[idx];
      assert turns[idx] == TurnOf(piece, size);
      if Blank(piece) {
        continue;
      }
      var ends := Ends(piece);
      if ends.None? {
        assert turns[idx] == Reject;
        return Invalid;
      }
      var (start, end) := ends.value;
      var r: HttpRange;
      if start == "" {
        var parsed := ParseInt(end);
        if parsed.None? {
          assert turns[idx] == Reject;
          return Invalid;
        }
        var i := parsed.value;
        if i > size {
          i := size;
        }
        r := SuffixRange(i, size);
        KeptTurn(piece, size, Suffix(parsed.value), r);
      } else {
        var parsed := ParseInt(start);
        if parsed.None? || parsed.value < 0 {
          assert turns[idx] == Reject;
          return Invalid;
        }
        var i := parsed.value;
        if i >= size {
          noOverlap := true;
          continue;
        }
        if end == "" {
          r := HttpRange(i, size - i);
          KeptTurn(piece, size, From(i), r);
        } else {
          var parsedEnd := ParseInt(end);
          if parsedEnd.None? || i > parsedEnd.value {
            assert turns[idx] == Reject;
            return Invalid;
          }
          var j := parsedEnd.value;
          if j >= size {
            j := size - 1;
          }
          r := HttpRange(i, j - i + 1);
          KeptTurn(piece, size, FromTo(i, parsedEnd.value), r);
        }
      }
      assert turns[idx] == Keep(r);
      ranges := ranges + [r];
    }
    assert turns[..|pieces|] == turns;
    if noOverlap && |ranges| == 0 {
      return NoOverlap;
    }
    return Ranges(ranges);
  }

  // ---------------------------------------------------------- what it guarantees

  lemma ResolveInBounds(spec: ByteSpec, size: Size)
    requires spec.InRange() && spec.Kept(size)
    ensures spec.Resolve(size).InBounds(size) <==> !(spec.Suffix? && spec.n < 0)
    ensures forall k :: 0 <= k < size ==> (spec.Resolve(size).Covers(k) <==> spec.Selects(size, k))
  {
  }

  /** A piece with a suffix length below zero, such as "--5". */
  predicate NegativeSuffix(piece: string) {
    !Blank(piece) && var spec := ReadSpec(piece);
    spec.Some? && spec.value.Suffix? && spec.value.n < 0
  }

  /** A well-formed piece asks for byte `k`. */
  predicate Selected(piece: string, size: Size, k: int) {
    !Blank(piece) && var spec := ReadSpec(piece);
    spec.Some? && spec.value.Selects(size, k)
  }

  lemma TurnMeaning(piece: string, size: Size)
    ensures var t := TurnOf(piece, size);
            && (t.Keep? ==> (t.r.InBounds(size) <==> !NegativeSuffix(piece)))
            && (t.Keep? ==> forall k :: 0 <= k < size ==> (t.r.Covers(k) <==> Selected(piece, size, k)))
            && (t.Skip? || t.Drop? ==> !NegativeSuffix(piece))
            && (t.Skip? || t.Drop? ==> forall k :: !Selected(piece, size, k))
  {
    var spec := ReadSpec(piece);
    if !Blank(piece) && spec.Some? && spec.value.Kept(size) {
      ResolveInBounds(spec.value, size);
    }
  }

  lemma {:induction false} KeepsMember(turns: seq<Turn>, r: HttpRange)
    ensures r in Keeps(turns) <==> Keep(r) in turns
  {
    if turns != [] {
      var last := |turns| - 1;
      KeepsMember(turns[..last], r);
      TakeStep(turns, last);
      assert turns == turns[..last] + [turns[last]];
    }
  }

  /**
   All returned ranges lie within the content exactly when no piece is a negative suffix;
   no bound on the header, its blanks or the numbers in it.
   */
  lemma ReturnedRangesInBounds(header: string, size: Size)
    requires ParsedHeader(header, size).Ranges? && header != ""
    ensures (forall r :: r in ParsedHeader(header, size).ranges ==> r.InBounds(size)) <==>
            (forall i :: 0 <= i < |Pieces(header)| ==> !NegativeSuffix(Pieces(header)[i]))
  {
    var pieces, rs := Pieces(header), ParsedHeader(header, size).ranges;
    var turns := Turns(pieces, size);
    forall i | 0 <= i < |pieces|
      ensures NegativeSuffix(pieces[i]) <==> turns[i].Keep? && !turns[i].r.InBounds(size)
    {
      assert turns[i] in turns;
      TurnMeaning(pieces[i], size);
    }
    forall r: HttpRange
      ensures r in rs <==> exists i :: 0 <= i < |turns| && turns[i] == Keep(r)
    {
      KeepsMember(turns, r);
    }
  }

  /** The bytes covered are exactly the bytes below `size` that some spec selects. */
  lemma CoveredIsSelected(header: string, size: Size, k: int)
    requires 0 <= k < size
    requires ParsedHeader(header, size).Ranges? && header != ""
    ensures (exists r :: r in ParsedHeader(header, size).ranges && r.Covers(k)) <==>
            (exists i :: 0 <= i < |Pieces(header)| && Selected(Pieces(header)[i], size, k))
  {
    var pieces, rs := Pieces(header), ParsedHeader(header, size).ranges;
    var turns := Turns(pieces, size);
    forall i | 0 <= i < |pieces|
      ensures Selected(pieces[i], size, k) <==> turns[i].Keep? && turns[i].r.Covers(k)
    {
      assert turns[i] in turns;
      TurnMeaning(pieces[i], size);
    }
    forall r: HttpRange
      ensures r in rs <==> exists i :: 0 <= i < |turns| && turns[i] == Keep(r)
    {
      KeepsMember(turns, r);
    }
  }

  lemma {:induction false} KeepsNothing(turns: seq<Turn>)
    ensures Keeps(turns) == [] <==> forall t :: t in turns ==> !t.Keep?
  {
    if turns != [] {
      var last := |turns| - 1;
      KeepsNothing(turns[..last]);
      assert turns == turns[..last] + [turns[last]];
    }
  }

  // ---------------------------------------------------- agreement with RFC 7233

  /** The spec a piece without blanks denotes by the grammar of section 2.1, numbers unbounded. */
  function Grammar(text: string): (spec: Option<ByteSpec>)
    ensures spec.Some? ==> spec.value.Plain()
  {
    var dash := IndexByte(text, '-');
    if dash < 0 then None
    else
      var a, b := text[..dash], text[dash + 1..];
      if AllDigits(a) && AllDigits(b) then DigitSpec(a, b) else None
  }

  function DigitSpec(a: string, b: string): (spec: Option<ByteSpec>)
    requires AllDigits(a) && AllDigits(b)
    ensures spec.Some? ==> spec.value.Plain()
  {
    if a == "" && b == "" then None
    else if a == "" then Some(Suffix(DigitsValue(b)))
    else if b == "" then Some(From(DigitsValue(a)))
    else if DigitsValue(a) > DigitsValue(b) then None
    else Some(FromTo(DigitsValue(a), DigitsValue(b)))
  }

  /** OWS of section 3.2.3 of RFC 7230: the blanks allowed around a list element. */
  predicate IsOws(c: char) {
    c == ' ' || c == '\t'
  }

  function TrimOws(s: string): (t: string)
    ensures t != "" ==> !IsOws(t[0]) && !IsOws(t[|t| - 1])
    ensures s != "" && !IsOws(s[0]) ==> t != "" && t[0] == s[0]
    decreases |s|
  {
    if s != "" && IsOws(s[0]) then TrimOws(s[1..])
    else if s != "" && IsOws(s[|s| - 1]) then TrimOws(s[..|s| - 1])
    else s
  }

  /**
   What section 2.1 makes of a list element: empty elements are skipped, what the grammar does
   not allow is rejected, and the size only decides whether a spec is satisfiable.
   */
  function RfcTurn(piece: string, size: Size): Turn {
    var text := TrimOws(piece);
    if text == "" then Skip
    else
      match Grammar(text)
      case None => Reject
      case Some(spec) => if spec.Satisfiable(size) then Keep(spec.Asks(size)) else Drop
  }

  function RfcTurns(pieces: seq<string>, size: Size): (turns: seq<Turn>)
    ensures |turns| == |pieces|
    ensures forall i :: 0 <= i < |turns| ==> turns[i] == RfcTurn(pieces[i], size)
  {
    seq(|pieces|, i requires 0 <= i < |pieces| => RfcTurn(pieces[i], size))
  }

  /** A byte-range-set has at least one element that is not empty. */
  function RfcVerdict(turns: seq<Turn>): Parsed {
    if AllSkip(turns) then Invalid else Verdict(turns)
  }

  // ------------------------------------------ the kinds of pieces that fare differently

  predicate OutsideGrammar(piece: string) {
    TrimOws(piece) != "" && Grammar(TrimOws(piece)).None?
  }

  /** Read although the grammar has no such piece: a sign, a blank by the dash, other white space. */
  predicate ReadAnyway(piece: string) {
    OutsideGrammar(piece) && (Blank(piece) || ReadSpec(piece).Some?)
  }

  /** Outside the grammar, but dropped for beginning past the end, such as "100-abc" at size 10. */
  predicate Overlooked(piece: string, size: Size) {
    OutsideGrammar(piece) && StartsPastEnd(piece, size)
  }

  /** In the grammar with a number beyond int64 that the parser gets to, such as a last position. */
  predicate TooBig(piece: string, size: Size) {
    var spec := Grammar(TrimOws(piece));
    spec.Some? && !spec.value.FitsInt64() && !StartsPastEnd(piece, size)
  }

  /** A suffix of zero bytes, which the standard calls unsatisfiable. */
  predicate ZeroSuffix(piece: string) {
    Grammar(TrimOws(piece)) == Some(Suffix(0))
  }

  predicate Departs(piece: string, size: Size) {
    ReadAnyway(piece) || Overlooked(piece, size) || TooBig(piece, size) || ZeroSuffix(piece)
  }

  /** Go's white space includes OWS, and a piece of the grammar has nothing else to strip. */
  lemma {:induction false} TrimSpaceIsTrimOws(s: string)
    requires TrimOws(s) != "" ==> IsGraphic(TrimOws(s)[0]) && IsGraphic(TrimOws(s)[|TrimOws(s)| - 1])
    ensures TrimSpace(s) == TrimOws(s)
    decreases |s|
  {
    if s != "" && IsOws(s[0]) {
      assert LeadingSpace(s) == 1;
      TrimSpaceIsTrimOws(s[1..]);
    } else if s != "" && IsOws(s[|s| - 1]) {
      assert TrimOws(s)[0] == s[0];
      NoSpaceAtGraphic(s);
      assert TrailingSpace(s) == 1;
      TrimSpaceIsTrimOws(s[..|s| - 1]);
    } else {
      TrimSpaceOfGraphic(s);
    }
  }

  /** The parser splits a piece of the grammar into the grammar's digits. */
  lemma EndsOfGrammar(piece: string)
    requires Grammar(TrimOws(piece)).Some?
    ensures var text := TrimOws(piece);
      var dash := IndexByte(text, '-');
      && !Blank(piece) && 0 <= dash < |text|
      && Ends(piece) == Some((text[..dash], text[dash + 1..]))
  {
    hide TrimSpace, TrimOws, DigitsValue;
    var text := TrimOws(piece);
    var dash := IndexByte(text, '-');
    var a, b := text[..dash], text[dash + 1..];
    hide IndexByte;
    forall i | 0 <= i < |text|
      ensures IsGraphic(text[i])
    {
      assert i < dash ==> text[i] == a[i];
      assert i > dash ==> text[i] == b[i - dash - 1];
    }
    TrimSpaceIsTrimOws(piece);
    TrimSpaceOfGraphic(a);
    TrimSpaceOfGraphic(b);
  }

  /** A piece of the grammar is read as the grammar says, if its numbers are int64s. */
  lemma GrammarIsRead(piece: string, size: Size)
    requires Grammar(TrimOws(piece)).Some?
    ensures var spec := Grammar(TrimOws(piece)).value;
      && !Blank(piece)
      && ReadSpec(piece) == (if spec.FitsInt64() then Some(spec) else None)
      && (StartsPastEnd(piece, size) <==> !spec.Suffix? && size <= spec.first <= MAX_INT64)
  {
    EndsOfGrammar(piece);
    var text := TrimOws(piece);
    var dash := IndexByte(text, '-');
    hide IndexByte, TrimSpace, TrimOws, Ends, Blank, ReadSpec, StartsPastEnd, DigitSpec;
    DigitsAreRead(piece, text[..dash], text[dash + 1..], size);
  }

  lemma DigitsAreRead(piece: string, a: string, b: string, size: Size)
    requires Ends(piece) == Some((a, b)) && AllDigits(a) && AllDigits(b) && DigitSpec(a, b).Some?
    ensures var spec := DigitSpec(a, b).value;
      && ReadSpec(piece) == (if spec.FitsInt64() then Some(spec) else None)
      && (StartsPastEnd(piece, size) <==> !spec.Suffix? && size <= spec.first <= MAX_INT64)
  {
    hide DigitsValue, ParseInt, Ends;
    if a != "" {
      ParseIntOfDigits(a);
    }
    if b != "" {
      ParseIntOfDigits(b);
    }
  }

  lemma SameRange(spec: ByteSpec, size: Size)
    requires spec.Plain() && spec.FitsInt64() && spec.Satisfiable(size)
    ensures spec.Kept(size) && spec.Resolve(size) == spec.Asks(size)
  {
  }

  /** How the parser and the standard fare with one piece. */
  lemma TurnsAgree(piece: string, size: Size)
    ensures var ours, theirs := TurnOf(piece, size), RfcTurn(piece, size);
      && (theirs == Reject <==> OutsideGrammar(piece))
      && (theirs == Skip <==> TrimOws(piece) == "")
      && (theirs == Skip ==> ours == Skip)
      && (!Departs(piece, size) <==> ours == theirs)
      && (Departs(piece, size) ==>
            (ours == Reject && theirs != Reject) || (ours != Reject && theirs == Reject) ||
            (ours.Keep? && theirs == Drop))
  {
    hide TrimSpace, Ends, ParseInt, SuffixRange, StartsPastEnd, ReadSpec, Grammar, TrimOws, Blank;
    var text := TrimOws(piece);
    if text == "" {
      TrimSpaceIsTrimOws(piece);
      BlankIsTrimmed(piece);
      NoGrammarOfNothing();
    } else if Grammar(text).Some? {
      GrammarIsRead(piece, size);
      var spec := Grammar(text).value;
      if spec.FitsInt64() && spec.Satisfiable(size) {
        SameRange(spec, size);
      }
    }
  }

  /**
   The shapes that are read outside the grammar: some byte of the trimmed piece is a blank, a
   control or beyond ASCII, or there is a plus sign or a second dash.
   */
  lemma ReadAnywayShapes(piece: string)
    requires ReadAnyway(piece)
    ensures var text := TrimOws(piece);
      || (exists i :: 0 <= i < |text| && !IsGraphic(text[i]))
      || '+' in text
      || (exists i, j :: 0 <= i < j < |text| && text[i] == '-' && text[j] == '-')
  {
    var text := TrimOws(piece);
    hide TrimOws, TrimSpace, ParseInt, DigitsValue;
    if forall i :: 0 <= i < |text| ==> IsGraphic(text[i]) {
      TrimSpaceIsTrimOws(piece);
      var dash := IndexByte(text, '-');
      var a, b := text[..dash], text[dash + 1..];
      TrimSpaceOfGraphic(a);
      TrimSpaceOfGraphic(b);
      assert Ends(piece) == Some((a, b));
      hide IndexByte, Ends;
      if '+' !in text && '-' !in b {
        NumbersAreDigits(a);
        NumbersAreDigits(b);
      } else if '-' in b {
        var j :| 0 <= j < |b| && b[j] == '-';
        assert text[dash] == '-' && text[dash + 1 + j] == '-';
      }
    }
  }

  /** Without a sign ParseInt reads digits only. */
  lemma NumbersAreDigits(s: string)
    requires '+' !in s && '-' !in s
    ensures ParseInt(s).Some? ==> s != "" && AllDigits(s) && ParseInt(s).value == DigitsValue(s)
  {
    hide DigitsValue;
  }

  lemma BlankIsTrimmed(piece: string)
    requires TrimSpace(piece) == ""
    ensures Blank(piece)
  {
  }

  lemma NoGrammarOfNothing()
    ensures Grammar("").None?
  {
  }

  lemma SameTurns(a: seq<Turn>, b: seq<Turn>, last: nat)
    requires |a| == |b| == last + 1 && a[..last] == b[..last] && a[last] == b[last]
    ensures a == b
  {
    assert a == a[..last] + [a[last]] && b == b[..last] + [b[last]];
  }

  lemma {:induction false} KeepsFewer(ours: seq<Turn>, theirs: seq<Turn>)
    requires |ours| == |theirs|
    requires forall i :: 0 <= i < |ours| ==> ours[i] == theirs[i] || (ours[i].Keep? && theirs[i] == Drop)
    ensures |Keeps(theirs)| <= |Keeps(ours)|
    ensures |Keeps(theirs)| == |Keeps(ours)| ==> ours == theirs
  {
    if ours != [] {
      var last := |ours| - 1;
      KeepsFewer(ours[..last], theirs[..last]);
      if ours[..last] == theirs[..last] && ours[last] == theirs[last] {
        SameTurns(ours, theirs, last);
      }
    }
  }

  predicate Pairs(ours: seq<Turn>, theirs: seq<Turn>) {
    && |ours| == |theirs|
    && forall i :: 0 <= i < |ours| ==>
         && (theirs[i] == Skip ==> ours[i] == Skip)
         && (ours[i] == theirs[i] || ours[i] == Reject || theirs[i] == Reject || (ours[i].Keep? && theirs[i] == Drop))
  }

  predicate AllSkip(turns: seq<Turn>) {
    forall i :: 0 <= i < |turns| ==> turns[i].Skip?
  }

  lemma RejectIsNoSkip(turns: seq<Turn>)
    requires Reject in turns
    ensures !AllSkip(turns)
  {
  }

  lemma KeptVerdicts(ours: seq<Turn>, theirs: seq<Turn>)
    requires Pairs(ours, theirs) && Reject !in ours && Reject !in theirs
    ensures Verdict(ours) == Verdict(theirs) <==> ours == theirs
  {
    forall i | 0 <= i < |ours|
      ensures ours[i] == theirs[i] || (ours[i].Keep? && theirs[i] == Drop)
    {
      assert ours[i] in ours && theirs[i] in theirs;
    }
    hide Keeps;
    KeepsFewer(ours, theirs);
  }

  lemma VerdictsAgree(ours: seq<Turn>, theirs: seq<Turn>)
    requires Pairs(ours, theirs)
    ensures Verdict(ours) == RfcVerdict(theirs) <==>
      (ours == theirs && !AllSkip(theirs)) || (Reject in ours && Reject in theirs)
  {
    hide Keeps;
    if Reject !in ours && Reject !in theirs {
      KeptVerdicts(ours, theirs);
    } else {
      hide Pairs;
      if Reject in theirs {
        RejectIsNoSkip(theirs);
      } else {
        SkipsAreOurs(ours, theirs);
        hide AllSkip;
      }
    }
  }

  lemma SkipsAreOurs(ours: seq<Turn>, theirs: seq<Turn>)
    requires Pairs(ours, theirs) && Reject in ours
    ensures !AllSkip(theirs)
  {
  }

  predicate AnyDeparts(pieces: seq<string>, size: Size) {
    exists i :: 0 <= i < |pieces| && Departs(pieces[i], size)
  }

  predicate AnyRefused(pieces: seq<string>, size: Size) {
    exists i :: 0 <= i < |pieces| && TurnOf(pieces[i], size) == Reject
  }

  predicate AnyOutside(pieces: seq<string>) {
    exists i :: 0 <= i < |pieces| && OutsideGrammar(pieces[i])
  }

  predicate AllEmpty(pieces: seq<string>) {
    forall i :: 0 <= i < |pieces| ==> TrimOws(pieces[i]) == ""
  }

  lemma TurnsPair(pieces: seq<string>, size: Size)
    ensures var ours, theirs := Turns(pieces, size), RfcTurns(pieces, size);
      && Pairs(ours, theirs)
      && (ours == theirs <==> !AnyDeparts(pieces, size))
  {
    hide TurnOf, RfcTurn, Departs, OutsideGrammar, Turns, RfcTurns;
    var ours, theirs := Turns(pieces, size), RfcTurns(pieces, size);
    forall i | 0 <= i < |pieces|
      ensures theirs[i] == Skip ==> ours[i] == Skip
      ensures Departs(pieces[i], size) <==> ours[i] != theirs[i]
      ensures ours[i] == theirs[i] || ours[i] == Reject || theirs[i] == Reject
              || (ours[i].Keep? && theirs[i] == Drop)
    {
      TurnsAgree(pieces[i], size);
    }
  }

  lemma TurnsTell(pieces: seq<string>, size: Size)
    ensures Reject in Turns(pieces, size) <==> AnyRefused(pieces, size)
    ensures Reject in RfcTurns(pieces, size) <==> AnyOutside(pieces)
    ensures AllSkip(RfcTurns(pieces, size)) <==> AllEmpty(pieces)
  {
    hide TurnOf, RfcTurn, OutsideGrammar, Turns, RfcTurns, TrimOws;
    var ours, theirs := Turns(pieces, size), RfcTurns(pieces, size);
    forall i | 0 <= i < |pieces|
      ensures theirs[i] == Reject <==> OutsideGrammar(pieces[i])
      ensures theirs[i] == Skip <==> TrimOws(pieces[i]) == ""
    {
      TurnsAgree(pieces[i], size);
    }
    assert forall i :: 0 <= i < |pieces| ==> ours[i] == TurnOf(pieces[i], size);
  }

  /**
   The parser reaches the verdict of section 2.1 exactly when no piece is of a kind on which it
   departs and not all are empty, or when the parser refuses some piece and the grammar some piece.
   */
  lemma AgreesWithRfc(header: string, size: Size)
    requires HasPrefix(header, "bytes=")
    ensures var pieces := Pieces(header);
      ParsedHeader(header, size) == RfcVerdict(RfcTurns(pieces, size)) <==>
        (!AnyDeparts(pieces, size) && !AllEmpty(pieces)) || (AnyRefused(pieces, size) && AnyOutside(pieces))
  {
    var pieces := Pieces(header);
    hide Pieces, Turns, RfcTurns, Verdict, RfcVerdict, Pairs, AnyDeparts, AllEmpty, AnyRefused, AnyOutside, AllSkip;
    TurnsPair(pieces, size);
    TurnsTell(pieces, size);
    VerdictsAgree(Turns(pieces, size), RfcTurns(pieces, size));
  }

  // ---------------------------------------------------- an example of each kind

  function VerdictOfOne(t: Turn): Parsed {
    match t
    case Skip => Ranges([])
    case Reject => Invalid
    case Drop => NoOverlap
    case Keep(r) => Ranges([r])
  }

  lemma OnePiece(piece: string, size: Size)
    requires ',' !in piece
    ensures var header := "bytes=" + piece;
      && HasPrefix(header, "bytes=")
      && ParsedHeader(header, size) == VerdictOfOne(TurnOf(piece, size))
      && RfcVerdict(RfcTurns(Pieces(header), size)) ==
           if RfcTurn(piece, size).Skip? then Invalid else VerdictOfOne(RfcTurn(piece, size))
  {
    hide TurnOf, RfcTurn;
    assert ("bytes=" + piece)[6..] == piece;
    SplitLast(piece, ',');
    assert Turns([piece], size) == [TurnOf(piece, size)] && RfcTurns([piece], size) == [RfcTurn(piece, size)];
    OneTurn(TurnOf(piece, size));
    OneTurn(RfcTurn(piece, size));
    assert RfcTurns([piece], size)[0] == RfcTurn(piece, size);
  }

  lemma OneTurn(t: Turn)
    ensures Verdict([t]) == VerdictOfOne(t)
  {
    assert [t][..0] == [] && Keeps([]) == [];
    assert Keeps([t]) == if t.Keep? then [t.r] else [];
  }

  /** A piece of two parts around its first dash, as both readers see it. */
  lemma TwoParts(a: string, b: string)
    requires '-' !in a
    requires a != "" ==> IsGraphic(a[0]) && IsGraphic(a[|a| - 1])
    requires b != "" ==> IsGraphic(b[0]) && IsGraphic(b[|b| - 1])
    ensures var piece := a + "-" + b;
      && TrimOws(piece) == piece && !Blank(piece) && Ends(piece) == Some((a, b))
      && IndexByte(piece, '-') == |a| && piece[..|a|] == a && piece[|a| + 1..] == b
  {
    hide TrimSpace, IndexByte;
    var piece := a + "-" + b;
    CutAt(a, '-', b);
    TrimSpaceOfGraphic(piece);
    TrimSpaceOfGraphic(a);
    TrimSpaceOfGraphic(b);
  }

  /** A range that begins past the end and continues with anything but digits is not refused. */
  lemma OverlookedHeader(a: string, b: string, size: Size)
    requires a != "" && AllDigits(a) && size <= DigitsValue(a) <= MAX_INT64
    requires b != "" && IsGraphic(b[0]) && IsGraphic(b[|b| - 1]) && !AllDigits(b) && ',' !in b
    ensures var header := "bytes=" + (a + "-" + b);
      && ParsedHeader(header, size) == NoOverlap
      && HasPrefix(header, "bytes=") && RfcVerdict(RfcTurns(Pieces(header), size)) == Invalid
  {
    hide ParseInt, TrimSpace, TrimOws, IndexByte, Ends, Pieces, ParsedHeader, Verdict, RfcVerdict, RfcTurns,
         DigitsValue;
    TwoParts(a, b);
    ParseIntOfDigits(a);
    hide ReadSpec, Blank;
    OnePiece(a + "-" + b, size);
  }

  /** For example "bytes=100-abc" at size 10. */
  lemma OverlookedExample() returns (header: string)
    ensures header == "bytes=" + (Utoa(100) + "-" + "abc") && ParsedHeader(header, 10) == NoOverlap
    ensures HasPrefix(header, "bytes=") && RfcVerdict(RfcTurns(Pieces(header), 10)) == Invalid
  {
    hide ParseInt, Pieces, ParsedHeader, RfcVerdict, RfcTurns, DigitsValue, HasPrefix, Utoa;
    DigitsValueOfUtoa(100);
    assert !IsDigit("abc"[0]);
    header := "bytes=" + (Utoa(100) + "-" + "abc");
    OverlookedHeader(Utoa(100), "abc", 10);
  }

  /** A second dash makes the suffix length negative, and the range starts behind the content. */
  lemma NegativeTurn(n: int, size: Size)
    requires 0 < n && size + n <= MAX_INT64
    ensures var piece := "" + "-" + ("-" + Utoa(n));
      && ',' !in piece
      && TurnOf(piece, size) == Keep(HttpRange(size + n, -n)) && RfcTurn(piece, size) == Reject
  {
    hide TrimSpace, TrimOws, IndexByte, Utoa, ParseInt, Ends, DigitsValue, Blank;
    var end := "-" + Utoa(n);
    UtoaIsDigits(n);
    assert Itoa(-n) == end;
    ParseIntOfItoa(-n);
    assert !IsDigit(end[0]);
    TwoParts("", end);
  }

  /** "bytes=--5" at size 10: a range of length -5 that starts behind the content. */
  lemma NegativeSuffixExample() returns (header: string)
    ensures header == "bytes=" + ("" + "-" + ("-" + Utoa(5)))
    ensures ParsedHeader(header, 10) == Ranges([HttpRange(15, -5)])
    ensures HasPrefix(header, "bytes=") && RfcVerdict(RfcTurns(Pieces(header), 10)) == Invalid
  {
    hide TurnOf, RfcTurn, Pieces, ParsedHeader, RfcVerdict, RfcTurns, Utoa, HasPrefix;
    var piece := "" + "-" + ("-" + Utoa(5));
    NegativeTurn(5, 10);
    OnePiece(piece, 10);
    header := "bytes=" + piece;
  }

  /** A plus sign before a position is read past. */
  lemma PlusTurn(first: nat, last: nat, size: Size)
    requires first <= last < size
    ensures var piece := ("+" + Utoa(first)) + "-" + Utoa(last);
      && ',' !in piece
      && TurnOf(piece, size) == Keep(HttpRange(first, last - first + 1)) && RfcTurn(piece, size) == Reject
  {
    hide TrimSpace, TrimOws, IndexByte, Utoa, ParseInt, Ends, DigitsValue, Blank;
    var a, b := "+" + Utoa(first), Utoa(last);
    DigitsValueOfUtoa(first);
    DigitsValueOfUtoa(last);
    ParseIntOfPlus(Utoa(first));
    ParseIntOfDigits(b);
    assert !IsDigit(a[0]);
    TwoParts(a, b);
  }

  lemma ParseIntOfPlus(digits: string)
    requires digits != "" && AllDigits(digits)
    ensures ParseInt("+" + digits) == if IsInt64(DigitsValue(digits)) then Some(DigitsValue(digits)) else None
  {
    hide DigitsValue;
    assert ("+" + digits)[1..] == digits;
  }

  /** "bytes=+5-9" at size 20: served where the standard says malformed. */
  lemma PlusSignExample() returns (header: string)
    ensures header == "bytes=" + (("+" + Utoa(5)) + "-" + Utoa(9))
    ensures ParsedHeader(header, 20) == Ranges([HttpRange(5, 5)])
    ensures HasPrefix(header, "bytes=") && RfcVerdict(RfcTurns(Pieces(header), 20)) == Invalid
  {
    hide TurnOf, RfcTurn, Pieces, ParsedHeader, RfcVerdict, RfcTurns, Utoa, HasPrefix;
    var piece := ("+" + Utoa(5)) + "-" + Utoa(9);
    PlusTurn(5, 9, 20);
    OnePiece(piece, 20);
    header := "bytes=" + piece;
  }

  /** A last position beyond int64 is refused where the standard clips it to the content. */
  lemma TooBigTurn(last: nat, size: Size)
    requires last > MAX_INT64 && size > 0
    ensures var piece := Utoa(0) + "-" + Utoa(last);
      ',' !in piece && TurnOf(piece, size) == Reject && RfcTurn(piece, size) == Keep(HttpRange(0, size))
  {
    hide TrimSpace, TrimOws, IndexByte, Utoa, ParseInt, Ends, DigitsValue, Blank;
    var a, b := Utoa(0), Utoa(last);
    DigitsValueOfUtoa(0);
    DigitsValueOfUtoa(last);
    ParseIntOfDigits(a);
    ParseIntOfDigits(b);
    TwoParts(a, b);
  }

  /** "bytes=0-9223372036854775808" at size 10: refused where the standard asks for the whole content. */
  lemma TooBigExample() returns (header: string)
    ensures header == "bytes=" + (Utoa(0) + "-" + Utoa(0x8000_0000_0000_0000))
    ensures ParsedHeader(header, 10) == Invalid
    ensures HasPrefix(header, "bytes=") && RfcVerdict(RfcTurns(Pieces(header), 10)) == Ranges([HttpRange(0, 10)])
  {
    hide TurnOf, RfcTurn, Pieces, ParsedHeader, RfcVerdict, RfcTurns, Utoa, HasPrefix;
    var last: nat := 0x8000_0000_0000_0000;
    var piece := Utoa(0) + "-" + Utoa(last);
    TooBigTurn(last, 10);
    OnePiece(piece, 10);
    header := "bytes=" + piece;
  }

  /** "bytes=-0": an empty range where the standard says unsatisfiable, at any size. */
  lemma ZeroSuffixExample(size: Size) returns (header: string)
    ensures header == "bytes=" + ("" + "-" + Utoa(0)) && ParsedHeader(header, size) == Ranges([HttpRange(size, 0)])
    ensures HasPrefix(header, "bytes=") && RfcVerdict(RfcTurns(Pieces(header), size)) == NoOverlap
  {
    hide Pieces, ParsedHeader, RfcVerdict, RfcTurns, Utoa, HasPrefix, TrimSpace, TrimOws, IndexByte, ParseInt, Ends,
         DigitsValue, Blank;
    var b := Utoa(0);
    DigitsValueOfUtoa(0);
    ParseIntOfDigits(b);
    TwoParts("", b);
    OnePiece("" + "-" + b, size);
    header := "bytes=" + ("" + "-" + b);
  }

  /** No header asks for nothing; one that does not begin with "bytes=" is invalid, whatever it says. */
  lemma OtherHeaders(header: string, size: Size)
    ensures header == "" ==> ParsedHeader(header, size) == Ranges([])
    ensures header != "" && !HasPrefix(header, "bytes=") ==> ParsedHeader(header, size) == Invalid
  {
  }

  lemma NoOverlapTurns(turns: seq<Turn>)
    ensures Verdict(turns) == NoOverlap <==>
            (forall i :: 0 <= i < |turns| ==> turns[i].Skip? || turns[i].Drop?)
            && (exists i :: 0 <= i < |turns| && turns[i].Drop?)
  {
    KeepsNothing(turns);
    if Verdict(turns) == NoOverlap {
      forall i | 0 <= i < |turns|
        ensures turns[i].Skip? || turns[i].Drop?
      {
        assert turns[i] in turns;
      }
    }
  }

  /** NoOverlap exactly when every piece is blank or begins past the end, and one is not blank. */
  lemma NoOverlapExactly(header: string, size: Size)
    requires HasPrefix(header, "bytes=")
    ensures ParsedHeader(header, size) == NoOverlap <==>
            && (forall i :: 0 <= i < |Pieces(header)| ==>
                 Blank(Pieces(header)[i]) || StartsPastEnd(Pieces(header)[i], size))
            && (exists i :: 0 <= i < |Pieces(header)| && !Blank(Pieces(header)[i]))
  {
    var pieces := Pieces(header);
    forall i | 0 <= i < |pieces|
      ensures TurnOf(pieces[i], size).Skip? <==> Blank(pieces[i])
      ensures TurnOf(pieces[i], size).Drop? <==> !Blank(pieces[i]) && StartsPastEnd(pieces[i], size)
    {
    }
    NoOverlapTurns(Turns(pieces, size));
  }

  // ------------------------------------------------------------- Content-Range

  /** A Content-Range as its reader takes it apart: first position, last position and size. */
  function ReadContentRange(text: string): Option<(int, int, int)> {
    if !HasPrefix(text, "bytes ") then None
    else
      var rest := text[6..];
      var dash := IndexByte(rest, '-');
      if dash < 0 then None
      else
        var slash := IndexByte(rest[dash + 1..], '/');
        if slash < 0 then None
        else
          var tail := rest[dash + 1..];
          var first, last, size := ParseInt(rest[..dash]), ParseInt(tail[..slash]), ParseInt(tail[slash + 1..]);
          if first.None? || last.None? || size.None? then None else Some((first.value, last.value, size.value))
  }

  /** What contentRange prints reads back as the slice's first and last position and the size. */
  lemma ContentRangeReadsBack(r: HttpRange, size: Size)
    requires r.InBounds(size) && r.length > 0
    ensures ReadContentRange(r.ContentRange(size)) == Some((r.start, r.start + r.length - 1, size))
  {
    hide IndexByte, ParseInt, Utoa;
    var last := r.start + r.length - 1;
    var a, b, c := Utoa(r.start), Utoa(last), Utoa(size);
    var tail := b + "/" + c;
    UtoaIsDigits(r.start);
    UtoaIsDigits(last);
    ParseIntOfItoa(r.start);
    ParseIntOfItoa(last);
    ParseIntOfItoa(size);
    assert r.ContentRange(size) == "bytes " + (a + ['-'] + tail);
    assert ("bytes " + (a + ['-'] + tail))[6..] == a + ['-'] + tail;
    CutAt(a, '-', tail);
    CutAt(b, '/', c);
    assert tail == b + ['/'] + c;
  }

  // ---------------------------------------------------------------- round trip

  function FirstLasts(rs: seq<HttpRange>): (parts: seq<string>)
    ensures |parts| == |rs|
    ensures forall i :: 0 <= i < |rs| ==> parts[i] == rs[i].FirstLast()
  {
    seq(|rs|, i requires 0 <= i < |rs| => rs[i].FirstLast())
  }

  lemma EndsOfDigits(a: string, b: string)
    requires a != "" && AllDigits(a) && b != "" && AllDigits(b)
    ensures var text := a + "-" + b; Ends(text) == Some((a, b)) && !Blank(text) && ',' !in text
  {
    hide TrimSpace, IndexByte;
    var text := a + "-" + b;
    assert forall i :: 0 <= i < |text| ==> IsDigit(text[i]) || text[i] == '-';
    TrimSpaceOfGraphic(text);
    TrimSpaceOfGraphic(a);
    TrimSpaceOfGraphic(b);
    CutAt(a, '-', b);
  }

  lemma SpecOfEnds(piece: string, a: string, b: string, first: int, last: int)
    requires Ends(piece) == Some((a, b)) && a != "" && b != ""
    requires ParseInt(a) == Some(first) && ParseInt(b) == Some(last) && 0 <= first <= last
    ensures ReadSpec(piece) == Some(FromTo(first, last))
  {
  }

  lemma FirstLastTurn(r: HttpRange, size: Size)
    requires r.InBounds(size) && r.length > 0
    ensures ',' !in r.FirstLast() && TurnOf(r.FirstLast(), size) == Keep(r)
  {
    var last := r.start + r.length - 1;
    var a, b := Utoa(r.start), Utoa(last);
    var text := a + "-" + b;
    assert r.FirstLast() == text;
    UtoaIsDigits(r.start);
    UtoaIsDigits(last);
    EndsOfDigits(a, b);
    ParseIntOfItoa(r.start);
    ParseIntOfItoa(last);
    SpecOfEnds(text, a, b, r.start, last);
    assert FromTo(r.start, last).Resolve(size) == r;
  }

  lemma {:induction false} KeepsAll(rs: seq<HttpRange>, turns: seq<Turn>)
    requires |turns| == |rs| && forall i :: 0 <= i < |rs| ==> turns[i] == Keep(rs[i])
    ensures Keeps(turns) == rs
  {
    if rs != [] {
      var last := |rs| - 1;
      KeepsAll(rs[..last], turns[..last]);
      assert rs == rs[..last] + [rs[last]];
    }
  }

  lemma NoPieces(size: Size)
    ensures ParsedHeader("bytes=", size) == Ranges([])
  {
    assert "bytes="[6..] == "" && Pieces("bytes=") == [""];
    assert Turns([""], size) == [Skip];
    assert [Skip][..0] == [];
  }

  /** A header made of pieces that are all kept returns their ranges. */
  lemma PiecesOfList(pieces: seq<string>, size: Size, rs: seq<HttpRange>)
    requires |pieces| == |rs| > 0
    requires forall i :: 0 <= i < |rs| ==> ',' !in pieces[i] && TurnOf(pieces[i], size) == Keep(rs[i])
    ensures ParsedHeader("bytes=" + Join(pieces, ","), size) == Ranges(rs)
  {
    hide TurnOf, Join, Split;
    var list := Join(pieces, ",");
    assert ("bytes=" + list)[6..] == list && HasPrefix("bytes=" + list, "bytes=");
    SplitOfJoin(pieces, ',');
    var turns := Turns(pieces, size);
    KeepsAll(rs, turns);
    assert Reject !in turns;
  }

  /** Printing ranges the way Content-Range does and parsing them again is the identity. */
  lemma RangesRoundTrip(rs: seq<HttpRange>, size: Size)
    requires forall r :: r in rs ==> r.InBounds(size) && r.length > 0
    ensures ParsedHeader("bytes=" + Join(FirstLasts(rs), ","), size) == Ranges(rs)
  {
    var list := Join(FirstLasts(rs), ",");
    var header := "bytes=" + list;
    if rs == [] {
      assert header == "bytes=";
      NoPieces(size);
    } else {
      forall i | 0 <= i < |rs|
        ensures ',' !in FirstLasts(rs)[i] && TurnOf(FirstLasts(rs)[i], size) == Keep(rs[i])
      {
        assert rs[i] in rs;
        FirstLastTurn(rs[i], size);
      }
      PiecesOfList(FirstLasts(rs), size, rs);
    }
  }
}

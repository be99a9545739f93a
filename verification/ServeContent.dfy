/**
 How fileserver.go turns parsed ranges into a response: serveContent, sumRangesSize,
 rangesMIMESize and the goroutine that writes the multipart body.
 */
module ServeContent {
  import opened GoStrings
  import opened ByteRange
  import opened Http
  import opened Preconditions

  /** File contents, whose size is an int64. */
  type Content = c: string | |c| <= MAX_INT64

  // -------------------------------------------------------------------- sizes

  function TotalLength(rs: seq<HttpRange>): int {
    if rs == [] then 0 else TotalLength(rs[..|rs| - 1]) + rs[|rs| - 1].length
  }

  /** sumRangesSize, with the wrap-around of int64 addition. */
  method SumRangesSize(ranges: seq<HttpRange>) returns (size: int)
    ensures size == Wrap64(TotalLength(ranges))
  {
    size := 0;
    for i := 0 to |ranges|
      invariant size == Wrap64(TotalLength(ranges[..i]))
    {
      TakeStep(ranges, i);
      WrapAdd(TotalLength(ranges[..i]), ranges[i].length);
      size := Wrap64(size + ranges[i].length);
    }
    assert ranges[..|ranges|] == ranges;
  }

  // ---------------------------------------------------------- multipart bodies

  /** Lines, each ended by CRLF. */
  function Lines(lines: seq<string>): string {
    if lines == [] then "" else lines[0] + "\r\n" + Lines(lines[1..])
  }

  /** mimeHeader's fields in key order, after the rest of the delimiter line and up to the blank line. */
  function PartFields(r: HttpRange, ctype: string, size: Size): string {
    Lines(["", "Content-Range: " + r.ContentRange(size), "Content-Type: " + ctype, ""])
  }

  /** What multipart.Writer.CreatePart writes. */
  function PartHead(first: bool, boundary: string, r: HttpRange, ctype: string, size: Size): string {
    (if first then "--" else "\r\n--") + boundary + PartFields(r, ctype, size)
  }

  /** What multipart.Writer.Close writes. */
  function ClosingDelimiter(boundary: string): string {
    "\r\n--" + boundary + "--\r\n"
  }

  /** io.CopyN: the first `n` bytes, all of them when there are fewer, none when n <= 0. */
  function CopyN(source: string, n: int): (r: string)
    ensures r <= source
    ensures 0 <= n <= |source| ==> |r| == n
  {
    if n <= 0 then "" else if n <= |source| then source[..n] else source
  }

  /** Reading on from a position, which may lie past the end. */
  function From(content: string, start: nat): string {
    if start <= |content| then content[start..] else ""
  }

  /** The bytes a range denotes. */
  function Slice(content: Content, r: HttpRange): (s: string)
    requires r.start >= 0
    ensures r.InBounds(|content|) ==> s == content[r.start..r.start + r.length]
  {
    CopyN(From(content, r.start), r.length)
  }

  /** The file can be positioned at the range and has all the bytes it asks for. */
  predicate Readable(content: string, r: HttpRange) {
    r.start >= 0 && r.length <= |From(content, r.start)|
  }

  /** A part to be written: its delimiter and headers, and the range that follows them. */
  datatype Part = Part(head: string, r: HttpRange)

  function PartList(rs: seq<HttpRange>, ctype: string, boundary: string, size: Size): (ps: seq<Part>)
    ensures |ps| == |rs|
    ensures forall i :: 0 <= i < |rs| ==> ps[i] == Part(PartHead(i == 0, boundary, rs[i], ctype, size), rs[i])
  {
    seq(|rs|, i requires 0 <= i < |rs| => Part(PartHead(i == 0, boundary, rs[i], ctype, size), rs[i]))
  }

  predicate AllReadable(content: Content, ps: seq<Part>) {
    forall i :: 0 <= i < |ps| ==> Readable(content, ps[i].r)
  }

  /** The bytes of the given parts, up to the first one that cannot be read. */
  function Written(content: Content, ps: seq<Part>): string {
    if ps == [] then ""
    else
      var (init, last) := (ps[..|ps| - 1], ps[|ps| - 1]);
      if !AllReadable(content, init) then Written(content, init)
      else if last.r.start < 0 then Written(content, init) + last.head
      else Written(content, init) + last.head + Slice(content, last.r)
  }

  /** The multipart/byteranges body; cut short, and not closed, after a part that failed. */
  function Body(content: Content, rs: seq<HttpRange>, ctype: string, boundary: string): string {
    var ps := PartList(rs, ctype, boundary, |content|);
    if AllReadable(content, ps) then Written(content, ps) + ClosingDelimiter(boundary) else Written(content, ps)
  }

  /** The goroutine of serveContent that feeds the pipe, given what CreatePart writes for each range. */
  method WriteParts(content: Content, parts: seq<Part>, boundary: string) returns (out: string)
    ensures out == if AllReadable(content, parts) then Written(content, parts) + ClosingDelimiter(boundary)
                   else Written(content, parts)
  {
    out := "";
    for i := 0 to |parts|
      invariant AllReadable(content, parts[..i])
      invariant Written(content, parts[..i]) == out
    {
      WrittenStep(content, parts, i);
      var ra := parts[i].r;
      out := out + parts[i].head;
      if ra.start < 0 {
        StaysFailed(content, parts, i);
        return;
      }
      out := out + CopyN(From(content, ra.start), ra.length);
      if ra.length > |From(content, ra.start)| {
        StaysFailed(content, parts, i);
        return;
      }
    }
    assert parts[..|parts|] == parts;
    out := out + ClosingDelimiter(boundary);
  }

  lemma WrittenStep(content: Content, ps: seq<Part>, i: nat)
    requires i < |ps| && AllReadable(content, ps[..i])
    ensures Written(content, ps[..i + 1])
         == if ps[i].r.start < 0 then Written(content, ps[..i]) + ps[i].head
            else Written(content, ps[..i]) + ps[i].head + Slice(content, ps[i].r)
    ensures AllReadable(content, ps[..i + 1]) <==> Readable(content, ps[i].r)
    ensures Readable(content, ps[i].r) ==>
              |Slice(content, ps[i].r)| == if ps[i].r.length < 0 then 0 else ps[i].r.length
  {
    TakeStep(ps, i);
  }

  lemma {:induction false} StaysFailed(content: Content, ps: seq<Part>, i: nat)
    requires i < |ps| && !Readable(content, ps[i].r)
    ensures !AllReadable(content, ps) && Written(content, ps) == Written(content, ps[..i + 1])
    decreases |ps|
  {
    if i + 1 == |ps| {
      assert ps[..i + 1] == ps;
    } else {
      var init := ps[..|ps| - 1];
      assert init[..i + 1] == ps[..i + 1] && init[i] == ps[i];
      StaysFailed(content, init, i);
    }
  }

  /** Bytes of a delimiter and its headers; the boundary counts only through its length. */
  function HeadSize(first: bool, boundarySize: nat, r: HttpRange, ctype: string, size: Size): (n: nat)
    ensures forall b: string :: |b| == boundarySize ==> n == |PartHead(first, b, r, ctype, size)|
  {
    (if first then 2 else 4) + boundarySize + |PartFields(r, ctype, size)|
  }

  function MimeSize(rs: seq<HttpRange>, ctype: string, size: Size, boundarySize: nat): int {
    HeadSizes(rs, ctype, size, boundarySize) + boundarySize + 8 + TotalLength(rs)
  }

  function HeadSizes(rs: seq<HttpRange>, ctype: string, size: Size, boundarySize: nat): nat {
    if rs == [] then 0
    else
      var last := |rs| - 1;
      HeadSizes(rs[..last], ctype, size, boundarySize) + HeadSize(last == 0, boundarySize, rs[last], ctype, size)
  }

  /** rangesMIMESize: the same parts, written by a writer that only counts, in int64. */
  method RangesMIMESize(ranges: seq<HttpRange>, ctype: string, size: Size, boundary: string) returns (encSize: int)
    ensures encSize == Wrap64(MimeSize(ranges, ctype, size, |boundary|))
  {
    hide Wrap64;
    hide PartHead, HeadSize, HeadSizes, TotalLength;
    encSize := 0;
    var w := 0;
    NoSizes(ctype, size, |boundary|);
    assert ranges[..0] == [];
    for i := 0 to |ranges|
      invariant w == Wrap64(HeadSizes(ranges[..i], ctype, size, |boundary|))
      invariant encSize == Wrap64(TotalLength(ranges[..i]))
    {
      SizesStep(ranges, i, ctype, size, boundary);
      var head := |PartHead(i == 0, boundary, ranges[i], ctype, size)|;
      w := Wrap64(w + head);
      encSize := Wrap64(encSize + ranges[i].length);
    }
    assert ranges[..|ranges|] == ranges;
    ghost var heads, total := HeadSizes(ranges, ctype, size, |boundary|), TotalLength(ranges);
    var closing := |ClosingDelimiter(boundary)|;
    WrapAdd(heads, closing);
    WrapAdd(total, Wrap64(heads + closing));
    WrapAdd(heads + closing, total);
    w := Wrap64(w + closing);
    encSize := Wrap64(encSize + w);
  }

  lemma NoSizes(ctype: string, size: Size, boundarySize: nat)
    ensures Wrap64(HeadSizes([], ctype, size, boundarySize)) == 0 == Wrap64(TotalLength([]))
  {
  }

  lemma SizesStep(rs: seq<HttpRange>, i: nat, ctype: string, size: Size, boundary: string)
    requires i < |rs|
    ensures Wrap64(HeadSizes(rs[..i + 1], ctype, size, |boundary|)) ==
            Wrap64(Wrap64(HeadSizes(rs[..i], ctype, size, |boundary|)) +
                   |PartHead(i == 0, boundary, rs[i], ctype, size)|)
    ensures Wrap64(TotalLength(rs[..i + 1])) == Wrap64(Wrap64(TotalLength(rs[..i])) + rs[i].length)
  {
    hide Wrap64, PartHead, HeadSize;
    TakeStep(rs, i);
    WrapAdd(HeadSizes(rs[..i], ctype, size, |boundary|), |PartHead(i == 0, boundary, rs[i], ctype, size)|);
    WrapAdd(TotalLength(rs[..i]), rs[i].length);
  }

  /** The bytes that are really copied for the ranges: none for a negative length. */
  function Payload(rs: seq<HttpRange>): nat {
    if rs == [] then 0
    else Payload(rs[..|rs| - 1]) + if rs[|rs| - 1].length < 0 then 0 else rs[|rs| - 1].length
  }

  /** What the negative lengths take off the sum of all lengths. */
  function Excess(rs: seq<HttpRange>): nat {
    if rs == [] then 0
    else Excess(rs[..|rs| - 1]) + if rs[|rs| - 1].length < 0 then -rs[|rs| - 1].length else 0
  }

  lemma {:induction false} PayloadIsTotal(rs: seq<HttpRange>)
    ensures Payload(rs) == TotalLength(rs) + Excess(rs)
    ensures Excess(rs) == 0 <==> forall i :: 0 <= i < |rs| ==> rs[i].length >= 0
  {
    if rs != [] {
      PayloadIsTotal(rs[..|rs| - 1]);
    }
  }

  function HeadsOf(ps: seq<Part>): nat {
    if ps == [] then 0 else HeadsOf(ps[..|ps| - 1]) + |ps[|ps| - 1].head|
  }

  lemma {:induction false} WrittenSize(content: Content, ps: seq<Part>, rs: seq<HttpRange>, n: nat)
    requires AllReadable(content, ps)
    requires n <= |rs| == |ps| && forall i :: 0 <= i < |ps| ==> ps[i].r == rs[i]
    ensures |Written(content, ps[..n])| == HeadsOf(ps[..n]) + Payload(rs[..n])
    decreases n
  {
    if n > 0 {
      WrittenSize(content, ps, rs, n - 1);
      WrittenStep(content, ps, n - 1);
      TakeStep(ps, n - 1);
      TakeStep(rs, n - 1);
    }
  }

  lemma {:induction false} HeadsAreCounted(rs: seq<HttpRange>, ctype: string, boundary: string, size: Size, n: nat)
    requires n <= |rs|
    ensures HeadsOf(PartList(rs, ctype, boundary, size)[..n]) == HeadSizes(rs[..n], ctype, size, |boundary|)
    decreases n
  {
    if n > 0 {
      var ps := PartList(rs, ctype, boundary, size);
      HeadsAreCounted(rs, ctype, boundary, size, n - 1);
      TakeStep(ps, n - 1);
      TakeStep(rs, n - 1);
    }
  }

  /**
   The real body is longer than the dry run's sum by what the negative lengths take off, under
   any two boundaries of one length. So without negative lengths the two agree, and the count
   the code has of it is right exactly while it is an int64.
   */
  lemma DryRunAgrees(content: Content, rs: seq<HttpRange>, ctype: string, dry: string, sent: string)
    requires |dry| == |sent|
    requires forall i :: 0 <= i < |rs| ==> Readable(content, rs[i])
    ensures |Body(content, rs, ctype, sent)| == MimeSize(rs, ctype, |content|, |dry|) + Excess(rs)
    ensures Excess(rs) == 0 <==> forall i :: 0 <= i < |rs| ==> rs[i].length >= 0
    ensures Excess(rs) == 0 ==>
      (Wrap64(MimeSize(rs, ctype, |content|, |dry|)) == |Body(content, rs, ctype, sent)| <==>
       |Body(content, rs, ctype, sent)| <= MAX_INT64)
  {
    hide Wrap64;
    var ps := PartList(rs, ctype, sent, |content|);
    WrittenSize(content, ps, rs, |rs|);
    PayloadIsTotal(rs);
    HeadsAreCounted(rs, ctype, sent, |content|, |rs|);
    assert ps[..|rs|] == ps && rs[..|rs|] == rs;
  }

  /** Part `i` of the body is its head followed by exactly the bytes its range denotes. */
  lemma PartAt(content: Content, rs: seq<HttpRange>, ctype: string, boundary: string, i: nat)
      returns (before: string, head: string, slice: string, after: string)
    requires i < |rs| && rs[i].InBounds(|content|)
    requires forall k :: 0 <= k < |rs| ==> Readable(content, rs[k])
    ensures before == Written(content, PartList(rs, ctype, boundary, |content|)[..i])
    ensures head == PartHead(i == 0, boundary, rs[i], ctype, |content|)
    ensures slice == content[rs[i].start..rs[i].start + rs[i].length]
    ensures Body(content, rs, ctype, boundary) == before + head + slice + after
  {
    var ps := PartList(rs, ctype, boundary, |content|);
    before, head, slice := Written(content, ps[..i]), ps[i].head, Slice(content, rs[i]);
    var more := WrittenGrows(content, ps, i, |rs|);
    assert ps[..|rs|] == ps;
    after := more + ClosingDelimiter(boundary);
    ConcatAssoc(before + head + slice, more, ClosingDelimiter(boundary));
  }

  lemma {:induction false} WrittenGrows(content: Content, ps: seq<Part>, i: nat, n: nat) returns (more: string)
    requires i < n <= |ps| && AllReadable(content, ps)
    ensures Written(content, ps[..n]) == Written(content, ps[..i]) + ps[i].head + Slice(content, ps[i].r) + more
    decreases n
  {
    WrittenStep(content, ps, n - 1);
    if i == n - 1 {
      more := "";
    } else {
      var most := WrittenGrows(content, ps, i, n - 1);
      var upTo := Written(content, ps[..i]) + ps[i].head + Slice(content, ps[i].r);
      ConcatAssoc(upTo, most, ps[n - 1].head);
      ConcatAssoc(upTo, most + ps[n - 1].head, Slice(content, ps[n - 1].r));
      more := most + ps[n - 1].head + Slice(content, ps[n - 1].r);
    }
  }

  // ------------------------------------------------------------------ the response

  datatype Plan =
    | Whole
    | Single(r: HttpRange)
    | Multi(rs: seq<HttpRange>)
    | Unseekable
    | Unsatisfiable(noOverlap: bool)
  {
    predicate Refused() {
      Unseekable? || Unsatisfiable?
    }
  }

  /** What serveContent makes of a Range header. */
  function PlanOf(range: string, size: Size): (plan: Plan)
    ensures plan.Multi? ==> |plan.rs| > 1 && ParsedHeader(range, size) == Ranges(plan.rs)
    ensures plan.Single? ==> ParsedHeader(range, size) == Ranges([plan.r]) && plan.r.start >= 0
  {
    match ParsedHeader(range, size)
    case Invalid => Unsatisfiable(false)
    case NoOverlap => Unsatisfiable(true)
    case Ranges(rs) =>
      if Wrap64(TotalLength(rs)) > size || rs == [] then Whole
      else if |rs| > 1 then Multi(rs)
      else
        assert rs == [rs[0]];
        if rs[0].start < 0 then Unseekable else Single(rs[0])
  }

  /** The start of serveContent's range part: parse, drop excessive ranges, look at what is left. */
  method ReadPlan(range: string, size: Size) returns (plan: Plan)
    ensures plan == PlanOf(range, size)
  {
    var parsed := ParseRange(range, size);
    if !parsed.Ranges? {
      return Unsatisfiable(parsed == NoOverlap);
    }
    var ranges := parsed.ranges;
    var sum := SumRangesSize(ranges);
    if sum > size {
      ranges := [];
    }
    if |ranges| == 1 {
      return if ranges[0].start < 0 then Unseekable else Single(ranges[0]);
    } else if |ranges| > 1 {
      return Multi(ranges);
    }
    return Whole;
  }

  /** Everything about the request that does not come from its headers. */
  datatype Setting = Setting(ctype: string, modtime: int, cal: Calendar, dry: string, boundary: string,
                             unknownHostRoot: bool, seekError: string)

  function StatusOf(plan: Plan, s: Setting): int {
    match plan
    case Whole => if s.unknownHostRoot then 404 else 200
    case Single(_) => 206
    case Multi(_) => 206
    case Unseekable => 416
    case Unsatisfiable(_) => 416
  }

  /** The number of bytes announced and copied. */
  function LengthOf(plan: Plan, content: Content, s: Setting): int
    requires !plan.Refused()
  {
    match plan
    case Whole => |content|
    case Single(r) => r.length
    case Multi(rs) => Wrap64(MimeSize(rs, s.ctype, |content|, |s.dry|))
  }

  function BodyOf(plan: Plan, content: Content, s: Setting): string
    requires !plan.Refused() && (plan.Single? ==> plan.r.start >= 0)
  {
    match plan
    case Whole => content
    case Single(r) => Slice(content, r)
    case Multi(rs) => CopyN(Body(content, rs, s.ctype, s.boundary), LengthOf(plan, content, s))
  }

  /** The headers set for any content that is sent. */
  function FinalHeader(header: Header, sendSize: int): Header {
    var h := header[AcceptRanges := "bytes"];
    if Get(h, ContentEncoding) == "" then h[ContentLength := Itoa(sendSize)] else h
  }

  /** The headers with which a plan is answered. */
  function HeaderOf(plan: Plan, header: Header, content: Content, s: Setting): Header {
    match plan
    case Unsatisfiable(noOverlap) =>
      ErrorHeader(if noOverlap then header[Field.ContentRange := "bytes */" + Itoa(|content|)] else header)
    case Unseekable => ErrorHeader(header)
    case Single(r) =>
      FinalHeader(header[Field.ContentRange := r.ContentRange(|content|)], LengthOf(plan, content, s))
    case Multi(_) =>
      FinalHeader(header[ContentType := "multipart/byteranges; boundary=" + s.boundary], LengthOf(plan, content, s))
    case Whole => FinalHeader(header, LengthOf(plan, content, s))
  }

  /** The end of serveContent: the last headers, the status and the copy. */
  method Finish(w: ResponseWriter, req: Request, code: int, sendContent: string, sendSize: int)
    requires w.body == ""
    modifies w
    ensures w.status == code && w.body == if req.verb == "HEAD" then "" else CopyN(sendContent, sendSize)
    ensures w.header == FinalHeader(old(w.header), sendSize)
  {
    w.Set(AcceptRanges, "bytes");
    if Get(w.header, ContentEncoding) == "" {
      w.Set(ContentLength, Itoa(sendSize));
    }
    w.WriteHeader(code);
    if req.verb != "HEAD" {
      w.body := w.body + CopyN(sendContent, sendSize);
    }
  }

  /** The header asks for ranges that are sent as a part of the content. */
  predicate AsksForPart(range: string, size: Size) {
    var parsed := ParsedHeader(range, size);
    && parsed.Ranges? && parsed.ranges != [] && Wrap64(TotalLength(parsed.ranges)) <= size
    && (|parsed.ranges| == 1 ==> parsed.ranges[0].start >= 0)
  }

  /** The header cannot be parsed or satisfied, or its one range begins before the content. */
  predicate AsksInVain(range: string, size: Size) {
    var parsed := ParsedHeader(range, size);
    || !parsed.Ranges?
    || (&& |parsed.ranges| == 1 && Wrap64(TotalLength(parsed.ranges)) <= size && parsed.ranges[0].start < 0)
  }

  /** The second half of serveContent: the range header has passed the preconditions. */
  method SendContent(w: ResponseWriter, req: Request, content: Content, range: string, s: Setting)
    requires w.body == ""
    modifies w
    ensures var plan := PlanOf(range, |content|);
      && w.status == StatusOf(plan, s)
      && (!plan.Refused() ==> w.body == if req.verb == "HEAD" then "" else BodyOf(plan, content, s))
      && w.header == HeaderOf(plan, old(w.header), content, s)
    ensures w.status == 206 <==> AsksForPart(range, |content|)
    ensures w.status == 416 <==> AsksInVain(range, |content|)
    ensures w.status in {206, 416} || w.status == if s.unknownHostRoot then 404 else 200
    ensures w.status == 416 ==>
              w.body == (match ParsedHeader(range, |content|)
                         case NoOverlap => "invalid range: failed to overlap"
                         case Invalid => "invalid range"
                         case Ranges(_) => s.seekError) + "\n"
  {
    hide Wrap64, MimeSize, TotalLength, ParsedHeader;
    var size := |content|;
    var plan := ReadPlan(range, size);
    var code, sendSize, sendContent: string := 200, size, content;
    if s.unknownHostRoot {
      code := 404;
    }
    match plan {
      case Unsatisfiable(noOverlap) =>
        if noOverlap {
          w.Set(Field.ContentRange, "bytes */" + Itoa(size));
        }
        w.Error(if noOverlap then "invalid range: failed to overlap" else "invalid range", 416);
        return;
      case Unseekable =>
        w.Error(s.seekError, 416);
        return;
      case Single(ra) =>
        sendContent, sendSize, code := From(content, ra.start), ra.length, 206;
        w.Set(Field.ContentRange, ra.ContentRange(size));
      case Multi(ranges) =>
        sendSize := RangesMIMESize(ranges, s.ctype, size, s.dry);
        code := 206;
        w.Set(ContentType, "multipart/byteranges; boundary=" + s.boundary);
        sendContent := WriteParts(content, PartList(ranges, s.ctype, s.boundary, size), s.boundary);
      case Whole =>
    }
    Finish(w, req, code, sendContent, sendSize);
  }

  /** serveContent, from the preconditions to the last byte. */
  method ServeContent(w: ResponseWriter, req: Request, content: Content, s: Setting) returns (d: Decision)
    requires w.body == ""
    modifies w
    ensures d == Section6(req, Get(old(w.header), Etag), s.modtime, s.cal)
    ensures d == Failed ==> w.status == 412 && w.body == ""
    ensures d == NotModified ==> w.status == 304 && w.body == ""
    ensures d.Proceed? ==>
              var plan := PlanOf(d.range, |content|);
              && w.status == StatusOf(plan, s)
              && (!plan.Refused() ==> w.body == if req.verb == "HEAD" then "" else BodyOf(plan, content, s))
              && w.header == HeaderOf(plan, Dated(old(w.header), s.modtime, s.cal)[ContentType := s.ctype], content, s)
    ensures d.Proceed? ==>
              && (w.status == 206 <==> AsksForPart(d.range, |content|))
              && (w.status == 416 <==> AsksInVain(d.range, |content|))
              && (w.status in {206, 416} || w.status == if s.unknownHostRoot then 404 else 200)
    ensures d == Proceed("") ==>
              && w.status == (if s.unknownHostRoot then 404 else 200)
              && w.body == (if req.verb == "HEAD" then "" else content)
              && (Get(old(w.header), ContentEncoding) == "" ==> Get(w.header, ContentLength) == Itoa(|content|))
    ensures req.Header(Field.Range) == "" && d.Proceed? ==> d == Proceed("")
  {
    NoRangeIsWhole(|content|);
    StatusExactly(req, Get(w.header, Etag), s.modtime, s.cal);
    hide AsksForPart, AsksInVain, PlanOf;
    SetLastModified(w, s.modtime, s.cal);
    d := CheckPreconditions(w, req, s.modtime, s.cal);
    if d.Proceed? {
      w.Set(ContentType, s.ctype);
      SendContent(w, req, content, d.range, s);
    }
  }

  /** Without a range the plan is the whole content. */
  lemma NoRangeIsWhole(size: Size)
    ensures PlanOf("", size) == Whole
  {
    OtherHeaders("", size);
  }

  /** The headers of a part as they go over the wire, from the end of the delimiter to the blank line. */
  lemma PartFieldsAre(r: HttpRange, ctype: string, size: Size)
    ensures var CRLF := "\r\n";
      PartFields(r, ctype, size) == CRLF + ("Content-Range: " + r.ContentRange(size) + CRLF +
                                            ("Content-Type: " + ctype + CRLF + CRLF))
  {
    LinesOfFour("Content-Range: " + r.ContentRange(size), "Content-Type: " + ctype);
  }

  /** The delimiters around it: a line "--boundary" before each part and "--boundary--" at the end. */
  lemma DelimitersAre(boundary: string, r: HttpRange, ctype: string, size: Size)
    ensures PartHead(true, boundary, r, ctype, size) == "--" + boundary + PartFields(r, ctype, size)
    ensures PartHead(false, boundary, r, ctype, size) == "\r\n" + "--" + boundary + PartFields(r, ctype, size)
    ensures ClosingDelimiter(boundary) == "\r\n" + "--" + boundary + "--" + "\r\n"
  {
    hide PartFields;
    assert "\r\n" + "--" == "\r\n--" && "--" + "\r\n" == "--\r\n";
  }

  lemma LinesOfFour(a: string, b: string)
    ensures Lines(["", a, b, ""]) == "\r\n" + (a + "\r\n" + (b + "\r\n" + "\r\n"))
  {
    LinesCons("", [a, b, ""]);
    LinesCons(a, [b, ""]);
    LinesCons(b, [""]);
    LinesCons("", []);
    assert ["", a, b, ""] == [""] + [a, b, ""] && [a, b, ""] == [a] + [b, ""] && [b, ""] == [b] + [""];
    assert [""] == [""] + [];
    hide Lines;
    assert Lines([]) + "" == Lines([]);
  }

  lemma LinesCons(line: string, lines: seq<string>)
    ensures Lines([line] + lines) == line + "\r\n" + Lines(lines) && Lines([]) == ""
  {
    assert ([line] + lines)[1..] == lines;
  }

  // ------------------------------------------------------------------- what is sent

  lemma {:induction false} TotalOfInBounds(rs: seq<HttpRange>, size: Size)
    requires forall r :: r in rs ==> r.InBounds(size)
    ensures TotalLength(rs) >= 0
  {
    if rs != [] {
      InitAndLast(rs);
      TotalOfInBounds(rs[..|rs| - 1], size);
      assert rs[|rs| - 1].InBounds(size);
    }
  }

  /**
   The slices of a multi-range answer hold as many bytes as the lengths add up to, and as many
   more as the negative lengths took off the sum that was compared with the size. For a header
   without a negative suffix that is at most the size exactly while the lengths add up to an int64.
   */
  lemma PayloadOfPlan(range: string, size: Size)
    requires PlanOf(range, size).Multi?
    ensures var rs := PlanOf(range, size).rs;
      && Payload(rs) == TotalLength(rs) + Excess(rs)
      && HasPrefix(range, "bytes=")
      && ((forall i :: 0 <= i < |Pieces(range)| ==> !NegativeSuffix(Pieces(range)[i])) ==>
            (Payload(rs) <= size <==> TotalLength(rs) <= MAX_INT64))
  {
    hide Pieces, NegativeSuffix, Wrap64, Payload, TotalLength, Excess;
    var rs := PlanOf(range, size).rs;
    PayloadIsTotal(rs);
    MultiIsParsed(range, size);
    if forall i :: 0 <= i < |Pieces(range)| ==> !NegativeSuffix(Pieces(range)[i]) {
      ReturnedRangesInBounds(range, size);
      TotalOfInBounds(rs, size);
      forall i | 0 <= i < |rs|
        ensures rs[i].length >= 0
      {
        assert rs[i] in rs;
      }
    }
  }

  lemma MultiIsParsed(range: string, size: Size)
    requires PlanOf(range, size).Multi?
    ensures range != "" && HasPrefix(range, "bytes=") && Wrap64(TotalLength(PlanOf(range, size).rs)) <= size
  {
    hide Wrap64, Verdict;
  }

  /** "bytes=0-9,0-9,--10" at size 10: the lengths add up to 10, the slices hold 20 bytes. */
  lemma CancelledSum() returns (range: string, rs: seq<HttpRange>)
    ensures var p := Utoa(0) + "-" + Utoa(9); range == "bytes=" + Join([p, p, "" + "-" + ("-" + Utoa(10))], ",")
    ensures PlanOf(range, 10) == Multi(rs) && TotalLength(rs) == 10 && Payload(rs) == 20
  {
    var whole, back := HttpRange(0, 10), HttpRange(20, -10);
    var p, q := Utoa(0) + "-" + Utoa(9), "" + "-" + ("-" + Utoa(10));
    rs := [whole, whole, back];
    range := "bytes=" + Join([p, p, q], ",");
    hide TurnOf, RfcTurn, Utoa, ParsedHeader, Join, Wrap64, TotalLength, Payload;
    FirstLastTurn(whole, 10);
    NegativeTurn(10, 10);
    KeptByThree(p, p, q, 10, whole, whole, back);
    SumsOfThree(whole, whole, back);
  }

  lemma KeptByThree(p: string, q: string, t: string, size: Size, a: HttpRange, b: HttpRange, c: HttpRange)
    requires ',' !in p && ',' !in q && ',' !in t
    requires TurnOf(p, size) == Keep(a) && TurnOf(q, size) == Keep(b) && TurnOf(t, size) == Keep(c)
    ensures ParsedHeader("bytes=" + Join([p, q, t], ","), size) == Ranges([a, b, c])
  {
    hide TurnOf, ParsedHeader, Join;
    PiecesOfList([p, q, t], size, [a, b, c]);
  }

  lemma SumsOfThree(a: HttpRange, b: HttpRange, c: HttpRange)
    ensures TotalLength([a, b, c]) == a.length + b.length + c.length
    ensures a.length >= 0 && b.length >= 0 && c.length < 0 ==> Payload([a, b, c]) == a.length + b.length
  {
    assert [a, b, c][..2] == [a, b] && [a, b][..1] == [a] && [a][..0] == [];
    assert TotalLength([a]) == a.length && TotalLength([a, b]) == a.length + b.length;
    assert a.length >= 0 ==> Payload([a]) == a.length;
    assert a.length >= 0 && b.length >= 0 ==> Payload([a, b]) == a.length + b.length;
  }

  /** Four times the whole of 2^62 bytes adds up to 0 in int64, so all four parts are announced. */
  lemma WrappedSum() returns (range: string, rs: seq<HttpRange>)
    ensures var size: Size := 0x4000_0000_0000_0000;
      PlanOf(range, size) == Multi(rs) && TotalLength(rs) == 4 * size
  {
    var size: Size := 0x4000_0000_0000_0000;
    var all := HttpRange(0, size);
    rs := [all, all, all, all];
    range := "bytes=" + Join(FirstLasts(rs), ",");
    RangesRoundTrip(rs, size);
    TotalOfFour(all);
    WrapShift(0);
    hide ParsedHeader, TotalLength, Wrap64;
  }

  lemma TotalOfFour(r: HttpRange)
    ensures TotalLength([r, r, r, r]) == 4 * r.length
  {
    assert [r, r, r, r][..3] == [r, r, r] && [r, r, r][..2] == [r, r] && [r, r][..1] == [r] && [r][..0] == [];
    assert TotalLength([r]) == r.length;
    assert TotalLength([r, r]) == 2 * r.length;
    assert TotalLength([r, r, r]) == 3 * r.length;
  }

  /** Everything in a multipart body but the ranges' bytes. */
  function Overhead(rs: seq<HttpRange>, content: Content, s: Setting): nat {
    HeadSizes(rs, s.ctype, |content|, |s.dry|) + |s.dry| + 8
  }

  /**
   Whatever the ranges are, what is sent for several of them is never longer than the content and
   the delimiters and headers of the parts: a sum that wrapped or cancelled cuts the answer short.
   */
  lemma NeverMuchMore(range: string, content: Content, s: Setting)
    requires PlanOf(range, |content|).Multi?
    requires Overhead(PlanOf(range, |content|).rs, content, s) + |content| <= MAX_INT64
    ensures var plan := PlanOf(range, |content|);
      |BodyOf(plan, content, s)| <= Overhead(plan.rs, content, s) + |content|
  {
    hide Wrap64, Body, TotalLength, HeadSizes, ParsedHeader;
    MultiIsParsed(range, |content|);
    var plan := PlanOf(range, |content|);
    var heads, total := Overhead(plan.rs, content, s), TotalLength(plan.rs);
    WrapAdd(total, heads);
    assert MimeSize(plan.rs, s.ctype, |content|, |s.dry|) == total + heads;
    assert LengthOf(plan, content, s) == Wrap64(Wrap64(total) + heads) == Wrap64(total) + heads;
    hide BodyOf;
    CopiedAtMost(plan, content, s);
  }

  lemma CopiedAtMost(plan: Plan, content: Content, s: Setting)
    requires plan.Multi?
    ensures var n := LengthOf(plan, content, s); |BodyOf(plan, content, s)| <= if n < 0 then 0 else n
  {
    hide Body, LengthOf;
  }

  /**
   What a GET receives for in-bounds ranges: one range is exactly its slice and several are the
   complete multipart body, with the right length announced, exactly while that body's size is an
   int64. Ranges whose lengths add up to more than the content, in int64, are answered with the whole.
   */
  lemma ServedBytes(content: Content, range: string, header: Header, s: Setting)
    requires |s.dry| == |s.boundary|
    requires ParsedHeader(range, |content|).Ranges?
    requires forall r :: r in ParsedHeader(range, |content|).ranges ==> r.InBounds(|content|)
    ensures var plan, rs := PlanOf(range, |content|), ParsedHeader(range, |content|).ranges;
      && !plan.Refused()
      && (rs == [] || Wrap64(TotalLength(rs)) > |content| ==> plan.Whole?)
      && (|content| < TotalLength(rs) <= MAX_INT64 ==> plan.Whole?)
      && (rs != [] && Wrap64(TotalLength(rs)) <= |content| ==>
            plan == if |rs| == 1 then Single(rs[0]) else Multi(rs))
      && (plan.Whole? ==> BodyOf(plan, content, s) == content && LengthOf(plan, content, s) == |content|)
      && (plan.Single? ==>
            && plan.r.InBounds(|content|)
            && BodyOf(plan, content, s) == content[plan.r.start..plan.r.start + plan.r.length]
            && LengthOf(plan, content, s) == |BodyOf(plan, content, s)|)
      && (plan.Multi? ==>
            var body := Body(content, plan.rs, s.ctype, s.boundary);
            BodyOf(plan, content, s) == body && LengthOf(plan, content, s) == |body| <==> |body| <= MAX_INT64)
      && var h := HeaderOf(plan, header, content, s);
      && (Get(header, ContentEncoding) == "" ==> Get(h, ContentLength) == Itoa(LengthOf(plan, content, s)))
      && (plan.Single? ==> Get(h, Field.ContentRange) == plan.r.ContentRange(|content|))
      && Get(h, LastModified) == Get(header, LastModified)
  {
    var all := ParsedHeader(range, |content|).ranges;
    assert all != [] ==> all[0] in all;
    hide Wrap64, TotalLength, HeadSizes, MimeSize, Body, ParsedHeader, Itoa, HeaderOf;
    HeadersSay(PlanOf(range, |content|), header, content, s);
    match PlanOf(range, |content|) {
      case Multi(rs) =>
        ServedParts(content, rs, s);
      case _ =>
    }
  }

  lemma HeadersSay(plan: Plan, header: Header, content: Content, s: Setting)
    ensures var h := HeaderOf(plan, header, content, s);
      && (!plan.Refused() && Get(header, ContentEncoding) == "" ==>
            Get(h, ContentLength) == Itoa(LengthOf(plan, content, s)))
      && (plan.Single? ==> Get(h, Field.ContentRange) == plan.r.ContentRange(|content|))
      && Get(h, LastModified) == Get(header, LastModified)
      && (!plan.Refused() ==> Get(h, AcceptRanges) == "bytes")
      && (plan.Multi? ==> Get(h, ContentType) == "multipart/byteranges; boundary=" + s.boundary)
      && (plan == Unsatisfiable(true) ==> Get(h, Field.ContentRange) == "bytes */" + Itoa(|content|))
  {
    hide Itoa, LengthOf;
  }

  lemma ServedParts(content: Content, rs: seq<HttpRange>, s: Setting)
    requires |s.dry| == |s.boundary| && forall r :: r in rs ==> r.InBounds(|content|)
    ensures var plan, body := Multi(rs), Body(content, rs, s.ctype, s.boundary);
      BodyOf(plan, content, s) == body && LengthOf(plan, content, s) == |body| <==> |body| <= MAX_INT64
  {
    forall i | 0 <= i < |rs|
      ensures Readable(content, rs[i]) && rs[i].length >= 0
    {
      assert rs[i] in rs;
    }
    hide Wrap64, MimeSize, Body, Excess;
    DryRunAgrees(content, rs, s.ctype, s.dry, s.boundary);
  }
}

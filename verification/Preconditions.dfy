/**
 The precondition ladder of fileserver.go (section 6 of RFC 7232) and the date validators.
 Times are nanoseconds since the Unix epoch.
 */
module Preconditions {
  import opened GoStrings
  import opened EntityTags
  import opened Http

  const SECOND: int := 1_000_000_000

  /** Go's zero time.Time, 1 January of year 1. */
  const ZERO_TIME: int := -62_135_596_800 * SECOND

  /** time.Time.Unix: whole seconds, rounded down. */
  function Unix(t: int): int {
    t / SECOND
  }

  predicate IsZeroTime(t: int) {
    t == ZERO_TIME || t == 0
  }

  /** Printing and parsing of HTTP dates, in whole seconds; None stands for a parse error. */
  datatype Calendar = Calendar(format: int -> string, parse: string -> Option<int>) {
    /** A printed date parses back and does not look like an entity-tag. */
    ghost predicate Faithful() {
      forall t :: parse(format(t)) == Some(t) && format(t) != "" && ScanTag(format(t)).0 == ""
    }
  }

  // ------------------------------------------------------------ single conditions

  /** checkIfUnmodifiedSince: fails when the content changed in a later second. */
  function UnmodifiedCond(req: Request, modtime: int, cal: Calendar): (c: Cond)
    ensures c == CondFalse <==>
              req.Header(Field.IfUnmodifiedSince) != "" && !IsZeroTime(modtime) &&
              var t := cal.parse(req.Header(Field.IfUnmodifiedSince)); t.Some? && t.value < Unix(modtime)
    ensures c != Panics
  {
    var ius := req.Header(Field.IfUnmodifiedSince);
    if ius == "" || IsZeroTime(modtime) then CondNone
    else
      match cal.parse(ius)
      case None => CondNone
      case Some(t) => if modtime < (t + 1) * SECOND then CondTrue else CondFalse
  }

  /** checkIfModifiedSince: fails when the content did not change in a later second. */
  function ModifiedCond(req: Request, modtime: int, cal: Calendar): (c: Cond)
    ensures c == CondFalse <==>
              req.GetOrHead() && req.Header(Field.IfModifiedSince) != "" && !IsZeroTime(modtime) &&
              var t := cal.parse(req.Header(Field.IfModifiedSince)); t.Some? && t.value >= Unix(modtime)
    ensures c != Panics
  {
    var ims := req.Header(Field.IfModifiedSince);
    if !req.GetOrHead() then CondNone
    else if ims == "" || IsZeroTime(modtime) then CondNone
    else
      match cal.parse(ims)
      case None => CondNone
      case Some(t) => if modtime < (t + 1) * SECOND then CondFalse else CondTrue
  }

  /** checkIfRange: the validator is a tag that strongly matches, or the exact second. */
  function RangeCond(req: Request, etag: string, modtime: int, cal: Calendar): (c: Cond)
    ensures c == CondFalse <==>
              req.GetOrHead() && req.Header(Field.IfRange) != "" &&
              var ir := req.Header(Field.IfRange);
              var strong, dated := StrongMatch(ScanTag(ir).0, etag), cal.parse(ir) == Some(Unix(modtime));
              !strong && (ScanTag(ir).0 != "" || modtime == ZERO_TIME || !dated)
    ensures c != Panics
  {
    var ir := req.Header(Field.IfRange);
    if !req.GetOrHead() || ir == "" then CondNone
    else
      var tag := ScanTag(ir).0;
      if tag != "" then (if StrongMatch(tag, etag) then CondTrue else CondFalse)
      else if modtime == ZERO_TIME then CondFalse
      else
        match cal.parse(ir)
        case None => CondFalse
        case Some(t) => if t == Unix(modtime) then CondTrue else CondFalse
  }

  /** A tag in If-Range keeps the range exactly when it is the current one, both strong. */
  lemma TagInIfRange(req: Request, tag: string, etag: string, modtime: int, cal: Calendar)
    requires ValidTag(tag) && req.GetOrHead()
    ensures RangeCond(req.With(Field.IfRange, tag), etag, modtime, cal) == CondFalse <==>
            !(tag == etag && !HasPrefix(tag, "W/"))
  {
    SameOtherwise(req, Field.IfRange, tag);
    ScanTagOf(tag, "");
    assert tag + "" == tag;
  }

  // ------------------------------------------------------------------- the ladder

  /** What the preconditions decide; Crash stands for the panic in the If-None-Match walk. */
  datatype Decision = Failed | NotModified | Proceed(range: string) | Crash

  /**
   Section 6 of RFC 7232 read step by step: If-Match before If-Unmodified-Since, one of
   them before If-None-Match, that before If-Modified-Since, and If-Range last.
   */
  function Section6(req: Request, etag: string, modtime: int, cal: Calendar): Decision {
    var matchPresent := req.Header(Field.IfMatch) != "";
    var noneMatchPresent := req.Header(Field.IfNoneMatch) != "";
    if matchPresent && MatchCond(req.Header(Field.IfMatch), etag) == CondFalse then Failed
    else if !matchPresent && UnmodifiedCond(req, modtime, cal) == CondFalse then Failed
    else if noneMatchPresent && NoneMatchCond(req.Header(Field.IfNoneMatch), etag) == Panics then Crash
    else if noneMatchPresent && NoneMatchCond(req.Header(Field.IfNoneMatch), etag) == CondFalse then
      (if req.GetOrHead() then NotModified else Failed)
    else if !noneMatchPresent && ModifiedCond(req, modtime, cal) == CondFalse then NotModified
    else if RangeCond(req, etag, modtime, cal) == CondFalse then Proceed("")
    else Proceed(req.Header(Field.Range))
  }

  /** The headers after writeNotModified. */
  function NotModifiedHeader(header: Header): Header {
    var h := header - {ContentType, ContentLength};
    if Get(h, Etag) != "" then h - {LastModified} else h
  }

  method WriteNotModified(w: ResponseWriter)
    modifies w
    ensures w.status == 304 && w.body == old(w.body) && w.header == NotModifiedHeader(old(w.header))
    ensures forall f :: Get(w.header, f) ==
              if f == ContentType || f == ContentLength || (f == LastModified && Get(old(w.header), Etag) != "") then ""
              else Get(old(w.header), f)
  {
    w.Delete(ContentType);
    w.Delete(ContentLength);
    assert w.header == old(w.header) - {ContentType, ContentLength};
    if Get(w.header, Etag) != "" {
      w.Delete(LastModified);
    }
    w.WriteHeader(304);
  }

  /** checkPreconditions: the decision is section 6's, and the response says so. */
  method CheckPreconditions(w: ResponseWriter, req: Request, modtime: int, cal: Calendar) returns (d: Decision)
    modifies w
    ensures d == Section6(req, Get(old(w.header), Etag), modtime, cal)
    ensures w.body == old(w.body)
    ensures d == Failed ==> w.status == 412 && w.header == old(w.header)
    ensures d == NotModified ==> w.status == 304 && w.header == NotModifiedHeader(old(w.header))
    ensures d.Proceed? || d.Crash? ==> w.status == old(w.status) && w.header == old(w.header)
    ensures d.Proceed? && d.range != "" ==>
              && d.range == req.Header(Field.Range)
              && MatchCond(req.Header(Field.IfMatch), Get(w.header, Etag)) in {CondNone, CondTrue}
              && NoneMatchCond(req.Header(Field.IfNoneMatch), Get(w.header, Etag)) in {CondNone, CondTrue}
              && RangeCond(req, Get(w.header, Etag), modtime, cal) != CondFalse
  {
    var etag := Get(w.header, Etag);
    var ch := CheckIfMatch(req.Header(Field.IfMatch), etag);
    if ch == CondNone {
      ch := UnmodifiedCond(req, modtime, cal);
    }
    if ch == CondFalse {
      w.WriteHeader(412);
      return Failed;
    }
    var inm := CheckIfNoneMatch(req.Header(Field.IfNoneMatch), etag);
    match inm {
      case Panics =>
        return Crash;
      case CondFalse =>
        if req.GetOrHead() {
          WriteNotModified(w);
          return NotModified;
        } else {
          w.WriteHeader(412);
          return Failed;
        }
      case CondNone =>
        if ModifiedCond(req, modtime, cal) == CondFalse {
          WriteNotModified(w);
          return NotModified;
        }
      case CondTrue =>
    }
    var rangeHeader := req.Header(Field.Range);
    if rangeHeader != "" && RangeCond(req, etag, modtime, cal) == CondFalse {
      rangeHeader := "";
    }
    return Proceed(rangeHeader);
  }

  /** The headers once a known modification time is announced. */
  function Dated(header: Header, modtime: int, cal: Calendar): Header {
    if IsZeroTime(modtime) then header else header[LastModified := cal.format(Unix(modtime))]
  }

  /** setLastModified */
  method SetLastModified(w: ResponseWriter, modtime: int, cal: Calendar)
    modifies w`header
    ensures w.header == Dated(old(w.header), modtime, cal)
    ensures forall f :: Get(w.header, f) ==
              if f == LastModified && !IsZeroTime(modtime) then cal.format(Unix(modtime)) else Get(old(w.header), f)
  {
    if !IsZeroTime(modtime) {
      w.Set(LastModified, cal.format(Unix(modtime)));
    }
  }

  // ------------------------------------------------------------- what must be ignored

  // --------------------------------------------------------- one answer per status

  /** If-Match is there and names no tag that strongly equals the current one, and not all with a star. */
  predicate MatchFails(req: Request, etag: string) {
    var list := MatchList(req.Header(Field.IfMatch));
    req.Header(Field.IfMatch) != "" && !AnyStrong(list.tags, etag) && list.end != Star
  }

  /** The content changed in a later second than the header's date. */
  predicate ChangedAfter(header: string, modtime: int, cal: Calendar) {
    header != "" && modtime != ZERO_TIME && modtime != 0 && cal.parse(header).Some?
    && (cal.parse(header).value + 1) * 1_000_000_000 <= modtime
  }

  /** The content has not changed in a later second than the header's date. */
  predicate UnchangedSince(header: string, modtime: int, cal: Calendar) {
    header != "" && modtime != ZERO_TIME && modtime != 0 && cal.parse(header).Some?
    && modtime < (cal.parse(header).value + 1) * 1_000_000_000
  }

  /** The client's copy, or lack of one, does not allow the request: If-Match, or else If-Unmodified-Since. */
  predicate Stale(req: Request, etag: string, modtime: int, cal: Calendar) {
    MatchFails(req, etag)
    || (req.Header(Field.IfMatch) == "" && ChangedAfter(req.Header(Field.IfUnmodifiedSince), modtime, cal))
  }

  /** If-None-Match names a tag that weakly equals the current one, or all with a star. */
  predicate NoneMatchNames(req: Request, etag: string) {
    var list := NoneMatchList(req.Header(Field.IfNoneMatch));
    req.Header(Field.IfNoneMatch) != "" && (AnyWeak(list.tags, etag) || list.end == Star)
  }

  /** If-None-Match names nothing and its walk runs off the text. */
  predicate NoneMatchBreaks(req: Request, etag: string) {
    var list := NoneMatchList(req.Header(Field.IfNoneMatch));
    req.Header(Field.IfNoneMatch) != "" && !AnyWeak(list.tags, etag) && list.end == Dangling
  }

  /**
   412 exactly for a stale request, and for a named current tag on methods that change things; 304
   exactly on GET and HEAD for a named current tag or, without If-None-Match, for content not
   changed since; a panic exactly where the If-None-Match walk breaks; otherwise the request goes on.
   */
  lemma StatusExactly(req: Request, etag: string, modtime: int, cal: Calendar)
    ensures var d := Section6(req, etag, modtime, cal);
      && (d == Failed <==>
            || Stale(req, etag, modtime, cal)
            || (NoneMatchNames(req, etag) && req.verb != "GET" && req.verb != "HEAD"))
      && (d == NotModified <==>
            && !Stale(req, etag, modtime, cal) && (req.verb == "GET" || req.verb == "HEAD")
            && (|| NoneMatchNames(req, etag)
                || (req.Header(Field.IfNoneMatch) == ""
                    && UnchangedSince(req.Header(Field.IfModifiedSince), modtime, cal))))
      && (d == Crash <==> !Stale(req, etag, modtime, cal) && NoneMatchBreaks(req, etag))
      && (d.Proceed? ==> d.range in {"", req.Header(Field.Range)})
      && (d.Proceed? ==> (d.range == "" <==>
            req.Header(Field.Range) == "" || RangeCond(req, etag, modtime, cal) == CondFalse))
  {
    hide MatchList, NoneMatchList, AnyStrong, AnyWeak;
  }

  /** Lists of valid tags joined by ", ", as the only condition of a request. */
  lemma JoinedListsDecide(req: Request, tags: seq<string>, etag: string, modtime: int, cal: Calendar)
    requires tags != [] && AllValid(tags)
    requires req.Header(Field.IfUnmodifiedSince) == "" == req.Header(Field.IfModifiedSince)
    requires req.Header(Field.IfMatch) == "" == req.Header(Field.IfNoneMatch)
    ensures var d := Section6(req.With(Field.IfMatch, Join(tags, ", ")), etag, modtime, cal);
      if AnyStrong(tags, etag) then d.Proceed? else d == Failed
    ensures var d := Section6(req.With(Field.IfNoneMatch, Join(tags, ", ")), etag, modtime, cal);
      if !AnyWeak(tags, etag) then d.Proceed? else if req.GetOrHead() then d == NotModified else d == Failed
  {
    JoinedLists(tags, etag);
    JoinIsText(tags);
    SameOtherwise(req, Field.IfMatch, Join(tags, ", "));
    SameOtherwise(req, Field.IfNoneMatch, Join(tags, ", "));
    hide MatchCond, NoneMatchCond, AnyStrong, AnyWeak, Join;
  }

  /** Section 3.3: If-Modified-Since is ignored beside If-None-Match and outside GET and HEAD. */
  lemma IgnoresModifiedSince(req: Request, etag: string, modtime: int, cal: Calendar, date: string)
    requires req.Header(Field.IfNoneMatch) != "" || !req.GetOrHead()
    ensures Section6(req.With(Field.IfModifiedSince, date), etag, modtime, cal) == Section6(req, etag, modtime, cal)
  {
    SameOtherwise(req, Field.IfModifiedSince, date);
    SameDecision(req.With(Field.IfModifiedSince, date), req, etag, modtime, cal);
  }

  /** Section 3.4: If-Unmodified-Since is ignored beside If-Match. */
  lemma IgnoresUnmodifiedSince(req: Request, etag: string, modtime: int, cal: Calendar, date: string)
    requires req.Header(Field.IfMatch) != ""
    ensures Section6(req.With(Field.IfUnmodifiedSince, date), etag, modtime, cal) == Section6(req, etag, modtime, cal)
  {
    SameOtherwise(req, Field.IfUnmodifiedSince, date);
    SameDecision(req.With(Field.IfUnmodifiedSince, date), req, etag, modtime, cal);
  }

  /** Requests that agree on the headers that count, and on the date conditions that count, fare alike. */
  lemma SameDecision(a: Request, b: Request, etag: string, modtime: int, cal: Calendar)
    requires a.GetOrHead() == b.GetOrHead()
    requires a.Header(Field.IfMatch) == b.Header(Field.IfMatch)
    requires a.Header(Field.IfNoneMatch) == b.Header(Field.IfNoneMatch)
    requires a.Header(Field.IfRange) == b.Header(Field.IfRange) && a.Header(Field.Range) == b.Header(Field.Range)
    requires a.Header(Field.IfMatch) == "" ==>
               (UnmodifiedCond(a, modtime, cal) == CondFalse <==> UnmodifiedCond(b, modtime, cal) == CondFalse)
    requires a.Header(Field.IfNoneMatch) == "" ==>
               (ModifiedCond(a, modtime, cal) == CondFalse <==> ModifiedCond(b, modtime, cal) == CondFalse)
    ensures Section6(a, etag, modtime, cal) == Section6(b, etag, modtime, cal)
  {
    assert RangeCond(a, etag, modtime, cal) == RangeCond(b, etag, modtime, cal);
  }

  lemma SameOtherwise(req: Request, name: Field, value: string)
    ensures forall other :: other != name ==> req.With(name, value).Header(other) == req.Header(other)
    ensures req.With(name, value).Header(name) == value
    ensures req.With(name, value).GetOrHead() == req.GetOrHead()
  {
  }

  /** Echoing the Last-Modified this server sends in If-Modified-Since, alone, yields 304. */
  lemma EchoedModifiedSince(req: Request, etag: string, modtime: int, cal: Calendar)
    requires cal.Faithful() && !IsZeroTime(modtime) && req.GetOrHead()
    requires req.Header(Field.IfMatch) == req.Header(Field.IfUnmodifiedSince) == req.Header(Field.IfNoneMatch) == ""
    ensures Section6(req.With(Field.IfModifiedSince, cal.format(Unix(modtime))), etag, modtime, cal) == NotModified
  {
    assert cal.parse(cal.format(Unix(modtime))) == Some(Unix(modtime));
    SameOtherwise(req, Field.IfModifiedSince, cal.format(Unix(modtime)));
  }

  /** Echoing it in If-Unmodified-Since never gives 412: the outcome is that of leaving it out. */
  lemma EchoedUnmodifiedSince(req: Request, etag: string, modtime: int, cal: Calendar)
    requires cal.Faithful() && !IsZeroTime(modtime) && req.Header(Field.IfUnmodifiedSince) == ""
    ensures Section6(req.With(Field.IfUnmodifiedSince, cal.format(Unix(modtime))), etag, modtime, cal)
         == Section6(req, etag, modtime, cal)
  {
    assert cal.parse(cal.format(Unix(modtime))) == Some(Unix(modtime));
    SameOtherwise(req, Field.IfUnmodifiedSince, cal.format(Unix(modtime)));
    SameDecision(req.With(Field.IfUnmodifiedSince, cal.format(Unix(modtime))), req, etag, modtime, cal);
  }

  /** Echoing it in If-Range keeps the Range header. */
  lemma EchoedIfRange(req: Request, etag: string, modtime: int, cal: Calendar)
    requires cal.Faithful() && !IsZeroTime(modtime)
    ensures var d := Section6(req.With(Field.IfRange, cal.format(Unix(modtime))), etag, modtime, cal);
            d.Proceed? ==> d.range == req.Header(Field.Range)
  {
    assert cal.parse(cal.format(Unix(modtime))) == Some(Unix(modtime));
    SameOtherwise(req, Field.IfRange, cal.format(Unix(modtime)));
  }
}

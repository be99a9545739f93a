/**
 Entity-tags of fileserver.go: the scanner, the two comparisons and the loops that walk
 the lists in If-Match and If-None-Match (RFC 7232, sections 2.3, 3.1 and 3.2).
 */
module EntityTags {
  import opened GoStrings

  /** etagc of section 2.3, on bytes. */
  predicate IsTagChar(c: char) {
    c == '!' || '#' <= c <= '~' || c >= '\U{80}'
  }

  /** Where the opening quote belongs: after the weak marker, if there is one. */
  function QuoteAt(s: string): nat {
    if HasPrefix(s, "W/") then 2 else 0
  }

  /** entity-tag of section 2.3: an optional W/ and a quoted run of etagc. */
  predicate ValidTag(t: string) {
    var q := QuoteAt(t);
    && |t| >= q + 2
    && t[q] == '"' && t[|t| - 1] == '"'
    && forall i :: q < i < |t| - 1 ==> IsTagChar(t[i])
  }

  /** The quote that ends a tag whose characters are read from position `i`, or -1. */
  function ClosingQuote(s: string, i: nat): (end: int)
    requires i <= |s|
    ensures end == -1 || i <= end < |s|
    ensures end >= 0 ==> s[end] == '"' && forall k :: i <= k < end ==> IsTagChar(s[k])
    ensures end < 0 ==> forall e :: i <= e < |s| && s[e] == '"' ==> exists k :: i <= k < e && !IsTagChar(s[k])
    decreases |s| - i
  {
    if i == |s| then -1
    else if IsTagChar(s[i]) then ClosingQuote(s, i + 1)
    else if s[i] == '"' then i
    else -1
  }

  /**
   The tag at the front of the trimmed text and what follows it; two empty strings exactly
   when no valid tag starts there.
   */
  function ScanTag(s: string): (r: (string, string))
    ensures r.0 != "" ==> ValidTag(r.0) && TrimString(s) == r.0 + r.1 && |r.1| < |s|
    ensures r.0 == "" ==> r.1 == "" && forall k :: 0 <= k <= |TrimString(s)| ==> !ValidTag(TrimString(s)[..k])
  {
    var t := TrimString(s);
    var q := QuoteAt(t);
    if |t| < q + 2 || t[q] != '"' then
      assert forall k :: 0 <= k <= |t| && ValidTag(t[..k]) ==> QuoteAt(t[..k]) == q by { PrefixQuotes(t); }
      ("", "")
    else
      var end := ClosingQuote(t, q + 1);
      if end < 0 then
        assert forall k :: 0 <= k <= |t| ==> !ValidTag(t[..k]) by { NoTagWithoutClosing(t); }
        ("", "")
      else
        assert ValidTag(t[..end + 1]) by { assert QuoteAt(t[..end + 1]) == q; }
        (t[..end + 1], t[end + 1..])
  }

  lemma PrefixQuotes(t: string)
    ensures forall k :: 0 <= k <= |t| && ValidTag(t[..k]) ==> QuoteAt(t[..k]) == QuoteAt(t)
  {
    forall k | 0 <= k <= |t| && ValidTag(t[..k])
      ensures QuoteAt(t[..k]) == QuoteAt(t)
    {
      if k >= 2 {
        assert t[..k][0] == t[0] && t[..k][1] == t[1];
      }
    }
  }

  lemma NoTagWithoutClosing(t: string)
    requires |t| >= QuoteAt(t) + 2 && ClosingQuote(t, QuoteAt(t) + 1) < 0
    ensures forall k :: 0 <= k <= |t| ==> !ValidTag(t[..k])
  {
    PrefixQuotes(t);
    forall k | 0 <= k <= |t|
      ensures !ValidTag(t[..k])
    {
      assert forall i :: 0 <= i < k ==> t[..k][i] == t[i];
    }
  }

  /** fileserver.go's scanETag. */
  method ScanETag(text: string) returns (etag: string, remain: string)
    ensures (etag, remain) == ScanTag(text)
  {
    var s := TrimString(text);
    var start := 0;
    if HasPrefix(s, "W/") {
      start := 2;
    }
    if |s[start..]| < 2 || s[start] != '"' {
      return "", "";
    }
    var i := start + 1;
    while i < |s|
      invariant start + 1 <= i <= |s|
      invariant ClosingQuote(s, start + 1) == ClosingQuote(s, i)
    {
      var c := s[i];
      if c == '!' || '#' <= c <= '~' || c >= '\U{80}' {
      } else if c == '"' {
        return s[..i + 1], s[i + 1..];
      } else {
        return "", "";
      }
      i := i + 1;
    }
    return "", "";
  }

  // -------------------------------------------------------------- comparisons

  /** Strong comparison: identical, and not weak. */
  predicate StrongMatch(a: string, b: string) {
    a == b && a != "" && a[0] == '"'
  }

  /** Weak comparison: identical up to the weak marker. */
  predicate WeakMatch(a: string, b: string) {
    TrimPrefix(a, "W/") == TrimPrefix(b, "W/")
  }

  lemma StrongImpliesWeak(a: string, b: string)
    requires ValidTag(a) && ValidTag(b)
    ensures StrongMatch(a, b) <==> WeakMatch(a, b) && !HasPrefix(a, "W/") && !HasPrefix(b, "W/")
  {
    if WeakMatch(a, b) && !HasPrefix(a, "W/") && !HasPrefix(b, "W/") {
      assert a[0] == '"';
    }
  }

  /** Marking tags as weak ends every strong match and changes no weak one. */
  lemma WeakMarkers(a: string, b: string)
    requires ValidTag(a) && ValidTag(b) && !HasPrefix(a, "W/") && !HasPrefix(b, "W/")
    ensures StrongMatch(a, b) <==> a == b
    ensures WeakMatch(a, b) <==> a == b
    ensures WeakMatch("W/" + a, b) <==> a == b
    ensures WeakMatch(a, "W/" + b) <==> a == b
    ensures WeakMatch("W/" + a, "W/" + b) <==> a == b
    ensures !StrongMatch("W/" + a, b) && !StrongMatch(a, "W/" + b) && !StrongMatch("W/" + a, "W/" + b)
  {
    var x, y := "W/" + a, "W/" + b;
    assert x[2..] == a && y[2..] == b && x[..2] == "W/" && y[..2] == "W/";
    assert x[0] == 'W' && y[0] == 'W' && a[0] == '"' && b[0] == '"';
  }

  /** The bytes a tag may be made of: 0x21, 0x23 to 0x7E, and everything from 0x80. */
  lemma TagCharExactly(c: char)
    ensures ValidTag(['"', c, '"']) <==> c as int == 0x21 || 0x23 <= c as int <= 0x7E || c as int >= 0x80
  {
    var t := ['"', c, '"'];
    assert t[0] != 'W' && QuoteAt(t) == 0 && t[1] == c;
  }

  // -------------------------------------------------------------------- lists

  /** How a walk over a list header ends, when no member stops it earlier. */
  datatype ListEnd = Exhausted | Star | Garbage | Dangling

  datatype TagList = TagList(tags: seq<string>, end: ListEnd) {
    function Cons(tag: string): TagList {
      TagList([tag] + tags, end)
    }
  }

  /** The members checkIfMatch meets: every comma is skipped with the blanks around it. */
  function MatchList(s: string): TagList
    decreases |s|
  {
    var t := TrimString(s);
    if t == "" then TagList([], Exhausted)
    else if t[0] == ',' then MatchList(t[1..])
    else if t[0] == '*' then TagList([], Star)
    else
      var (tag, rest) := ScanTag(t);
      if tag == "" then TagList([], Garbage) else MatchList(rest).Cons(tag)
  }

  /** The members checkIfNoneMatch meets: one comma is skipped, and the text must go on after it. */
  function NoneMatchList(s: string): TagList
    decreases |s|
  {
    var t := TrimString(s);
    if t == "" then TagList([], Exhausted)
    else
      var u := if t[0] == ',' then t[1..] else t;
      if u == "" then TagList([], Dangling)
      else if u[0] == '*' then TagList([], Star)
      else
        var (tag, rest) := ScanTag(u);
        if tag == "" then TagList([], Garbage) else NoneMatchList(rest).Cons(tag)
  }

  /** condResult of fileserver.go; Panics stands for the run-time error of indexing past the end. */
  datatype Cond = CondNone | CondTrue | CondFalse | Panics

  predicate AnyStrong(tags: seq<string>, current: string) {
    exists t | t in tags :: StrongMatch(t, current)
  }

  predicate AnyWeak(tags: seq<string>, current: string) {
    exists t | t in tags :: WeakMatch(t, current)
  }

  /** What If-Match comes to for a current Etag: the members decide, then how the list ends. */
  function MatchCond(header: string, current: string): Cond {
    var list := MatchList(header);
    if header == "" then CondNone
    else if AnyStrong(list.tags, current) || list.end == Star then CondTrue
    else CondFalse
  }

  function NoneMatchCond(header: string, current: string): Cond {
    var list := NoneMatchList(header);
    if header == "" then CondNone
    else if AnyWeak(list.tags, current) || list.end == Star then CondFalse
    else if list.end == Dangling then Panics
    else CondTrue
  }

  /** fileserver.go's checkIfMatch on the header's value and the response's Etag. */
  method CheckIfMatch(header: string, current: string) returns (c: Cond)
    ensures c == MatchCond(header, current)
  {
    var im := header;
    if im == "" {
      return CondNone;
    }
    ghost var seen := [];
    while true
      invariant MatchList(header) == TagList(seen + MatchList(im).tags, MatchList(im).end)
      invariant !AnyStrong(seen, current)
      decreases |im|
    {
      ghost var all := MatchList(im);
      im := TrimString(im);
      TrimTwice(im);
      if |im| == 0 {
        break;
      }
      if im[0] == ',' {
        im := im[1..];
        continue;
      }
      if im[0] == '*' {
        return CondTrue;
      }
      var etag, remain := ScanETag(im);
      if etag == "" {
        break;
      }
      assert all == MatchList(remain).Cons(etag);
      if StrongMatch(etag, current) {
        assert etag in MatchList(header).tags;
        return CondTrue;
      }
      Shift(seen, etag, MatchList(remain).tags);
      seen := seen + [etag];
      im := remain;
    }
    assert seen + [] == seen;
    return CondFalse;
  }

  lemma Shift<T>(a: seq<T>, x: T, b: seq<T>)
    ensures a + ([x] + b) == (a + [x]) + b
  {
  }

  lemma TrimTwice(s: string)
    ensures TrimString(TrimString(s)) == TrimString(s)
  {
  }

  /** fileserver.go's checkIfNoneMatch on the header's value and the response's Etag. */
  method CheckIfNoneMatch(header: string, current: string) returns (c: Cond)
    ensures c == NoneMatchCond(header, current)
  {
    if header == "" {
      return CondNone;
    }
    var buf := header;
    ghost var seen := [];
    while true
      invariant NoneMatchList(header) == TagList(seen + NoneMatchList(buf).tags, NoneMatchList(buf).end)
      invariant !AnyWeak(seen, current)
      decreases |buf|
    {
      ghost var all := NoneMatchList(buf);
      buf := TrimString(buf);
      if |buf| == 0 {
        break;
      }
      if buf[0] == ',' {
        buf := buf[1..];
      }
      if |buf| == 0 {
        assert seen + [] == seen;
        return Panics;
      }
      if buf[0] == '*' {
        return CondFalse;
      }
      var etag, remain := ScanETag(buf);
      if etag == "" {
        break;
      }
      assert all == NoneMatchList(remain).Cons(etag);
      if WeakMatch(etag, current) {
        assert etag in NoneMatchList(header).tags;
        return CondFalse;
      }
      Shift(seen, etag, NoneMatchList(remain).tags);
      seen := seen + [etag];
      buf := remain;
    }
    assert seen + [] == seen;
    return CondTrue;
  }

  // -------------------------------------------------------- well-formed lists

  lemma TagsArePrefixFree(t: string, j: nat, k: nat)
    requires j <= |t| && k <= |t| && ValidTag(t[..j]) && ValidTag(t[..k])
    ensures j == k
  {
    PrefixQuotes(t);
    assert forall i :: 0 <= i < j ==> t[..j][i] == t[i];
    assert forall i :: 0 <= i < k ==> t[..k][i] == t[i];
  }

  /** Text that neither begins nor ends with a blank. */
  predicate Tight(s: string) {
    s != "" && !IsAsciiSpace(s[0]) && !IsAsciiSpace(s[|s| - 1])
  }

  lemma ScanTagOf(tag: string, rest: string)
    requires ValidTag(tag) && Tight(tag + rest)
    ensures ScanTag(tag + rest) == (tag, rest)
  {
    var t := tag + rest;
    assert TrimString(t) == t && t[..|tag|] == tag;
    var (found, after) := ScanTag(t);
    assert found != "";
    assert t[..|found|] == found;
    TagsArePrefixFree(t, |found|, |tag|);
    assert t[|tag|..] == rest && (found + after)[|found|..] == after;
  }

  // ------------------------------------------------------------- blanks

  predicate Blanks(s: string) {
    forall i :: 0 <= i < |s| ==> IsAsciiSpace(s[i])
  }

  lemma {:induction false} TrimLeft(b: string, s: string)
    requires Blanks(b)
    ensures TrimString(b + s) == TrimString(s)
  {
    if b == "" {
      assert b + s == s;
    } else {
      assert (b + s)[1..] == b[1..] + s;
      TrimLeft(b[1..], s);
    }
  }

  lemma {:induction false} TrimRight(s: string, b: string)
    requires Blanks(b)
    ensures TrimString(s + b) == TrimString(s)
    decreases |s| + |b|
  {
    if b == "" {
      assert s + b == s;
    } else if s == "" {
      assert s + b == b && b + s == b;
      TrimLeft(b, s);
    } else if IsAsciiSpace(s[0]) {
      assert (s + b)[1..] == s[1..] + b;
      TrimRight(s[1..], b);
    } else {
      assert (s + b)[..|s + b| - 1] == s + b[..|b| - 1];
      TrimRight(s, b[..|b| - 1]);
    }
  }

  /** Text that does not begin with a blank loses only blanks at its end. */
  lemma {:induction false} TrimEnd(s: string) returns (k: nat)
    requires s != "" && !IsAsciiSpace(s[0])
    ensures 0 < k <= |s| && TrimString(s) == s[..k] && Blanks(s[k..])
  {
    if IsAsciiSpace(s[|s| - 1]) {
      k := TrimEnd(s[..|s| - 1]);
      assert s[..|s| - 1][..k] == s[..k];
      assert forall i :: k <= i < |s| - 1 ==> s[i] == s[..|s| - 1][k..][i - k];
    } else {
      k := |s|;
      assert s[..k] == s;
    }
  }

  lemma ScanIgnoresBlanks(s: string, t: string)
    requires TrimString(s) == TrimString(t)
    ensures ScanTag(s) == ScanTag(t)
  {
  }

  lemma WalksIgnoreBlanks(s: string, t: string)
    requires TrimString(s) == TrimString(t)
    ensures MatchList(s) == MatchList(t) && NoneMatchList(s) == NoneMatchList(t)
  {
    hide TrimString, ScanTag;
  }

  lemma TagBegins(tag: string)
    requires ValidTag(tag)
    ensures tag != "" && (tag[0] == '"' || tag[0] == 'W')
    ensures tag[|tag| - 1] == '"'
  {
  }

  lemma BlanksFrom(s: string, k: nat)
    requires k <= |s| && Blanks(s[k..])
    ensures forall i :: k <= i < |s| ==> IsAsciiSpace(s[i])
  {
    forall i | k <= i < |s|
      ensures IsAsciiSpace(s[i])
    {
      assert s[k..][i - k] == s[i];
    }
  }

  /** A tag behind blanks is found, and what is left reads like what follows it. */
  lemma ScanFront(before: string, tag: string, rest: string)
    requires Blanks(before) && ValidTag(tag)
    ensures ScanTag(before + tag + rest).0 == tag
    ensures TrimString(ScanTag(before + tag + rest).1) == TrimString(rest)
    ensures TrimString(before + tag + rest) != "" && TrimString(before + tag + rest)[0] == tag[0]
  {
    hide ScanTag, ValidTag, TrimString;
    TagBegins(tag);
    var s := tag + rest;
    assert before + tag + rest == before + s;
    TrimLeft(before, s);
    var k := TrimEnd(s);
    BlanksFrom(s, k);
    assert s[|tag| - 1] == '"';
    var kept := rest[..k - |tag|];
    assert s[..k] == tag + kept;
    assert rest == kept + s[k..];
    TrimRight(kept, s[k..]);
    ScanTagOf(tag, kept);
    TrimTwice(s);
    ScanIgnoresBlanks(before + s, tag + kept);
  }

  /** What either walk makes of text behind a comma. */
  lemma BehindComma(x: string)
    ensures MatchList("," + x) == MatchList(x)
    ensures NoneMatchList("," + x) ==
      if TrimString(x) == "" then TagList([], Dangling)
      else if x[0] == '*' then TagList([], Star)
      else if ScanTag(x).0 == "" then TagList([], Garbage)
      else NoneMatchList(ScanTag(x).1).Cons(ScanTag(x).0)
  {
    hide ScanTag;
    var s := "," + x;
    var k := TrimEnd(s);
    var u := x[..k - 1];
    hide TrimString;
    assert s[..k] == "," + u && s[k..] == x[k - 1..] && (s[..k])[1..] == u && s[..k][0] == ',';
    assert x == u + x[k - 1..];
    TrimRight(u, x[k - 1..]);
    ScanIgnoresBlanks(u, x);
    WalksIgnoreBlanks(u, x);
    if u == "" {
      TrimOfNothing();
    } else {
      TightEnd(s, u);
    }
  }

  lemma TrimOfNothing()
    ensures TrimString("") == ""
  {
  }

  /** What is left of text behind a comma ends in no blank. */
  lemma TightEnd(s: string, u: string)
    requires u != "" && TrimString(s) == "," + u
    ensures TrimString(u) != ""
  {
    assert TrimString(s)[|u|] == u[|u| - 1];
    NotAllBlank(u, |u| - 1);
  }

  lemma {:induction false} NotAllBlank(s: string, i: nat)
    requires i < |s| && !IsAsciiSpace(s[i])
    ensures TrimString(s) != ""
    decreases |s|
  {
    if IsAsciiSpace(s[0]) {
      NotAllBlank(s[1..], i - 1);
    } else if IsAsciiSpace(s[|s| - 1]) {
      NotAllBlank(s[..|s| - 1], i);
    }
  }

  // ---------------------------------------------------- comma-separated lists

  /** A list element: nothing or a tag, with any blanks around it. */
  datatype Element = Element(before: string, tag: string, after: string) {
    predicate Valid() {
      Blanks(before) && Blanks(after) && (tag == "" || ValidTag(tag))
    }

    function Text(): string {
      before + tag + after
    }
  }

  predicate AllElements(es: seq<Element>) {
    forall i :: 0 <= i < |es| ==> es[i].Valid()
  }

  function ListText(es: seq<Element>): string
    requires es != []
  {
    if |es| == 1 then es[0].Text() else es[0].Text() + ("," + ListText(es[1..]))
  }

  /** The tags of a list; its empty elements count for nothing (section 7 of RFC 7230). */
  function TagsOf(es: seq<Element>): seq<string> {
    if es == [] then []
    else if es[0].tag == "" then TagsOf(es[1..])
    else [es[0].tag] + TagsOf(es[1..])
  }

  /** The tags up to the first empty element, which stops the If-None-Match walk. */
  function Leading(es: seq<Element>): TagList {
    if es == [] then TagList([], Exhausted)
    else if es[0].tag == "" then TagList([], if |es| == 1 then Dangling else Garbage)
    else Leading(es[1..]).Cons(es[0].tag)
  }

  /** What If-None-Match reads of a list: one empty element is passed over at its start. */
  function ReadByNoneMatch(es: seq<Element>): TagList
    requires es != []
  {
    Leading(if es[0].tag == "" then es[1..] else es)
  }

  /** What follows an element's tag in the text of a list. */
  function Rest(es: seq<Element>): string
    requires es != []
  {
    es[0].after + if |es| == 1 then "" else "," + ListText(es[1..])
  }

  lemma TextIs(es: seq<Element>)
    requires es != []
    ensures ListText(es) == es[0].before + es[0].tag + Rest(es)
  {
  }

  lemma {:induction false} WalksOfBlanks(b: string)
    requires Blanks(b)
    ensures TrimString(b) == ""
    ensures MatchList(b) == NoneMatchList(b) == TagList([], Exhausted)
  {
    TrimLeft(b, "");
    assert b + "" == b;
  }

  /** Blanks before a comma, and what either walk does there. */
  lemma RestWalks(es: seq<Element>)
    requires es != [] && es[0].Valid()
    ensures |es| == 1 ==> MatchList(Rest(es)) == NoneMatchList(Rest(es)) == TagList([], Exhausted)
    ensures |es| > 1 ==> MatchList(Rest(es)) == MatchList(ListText(es[1..]))
    ensures |es| > 1 ==> NoneMatchList(Rest(es)) == NoneMatchList("," + ListText(es[1..]))
  {
    hide MatchList, NoneMatchList, ListText, ValidTag;
    if |es| == 1 {
      assert Rest(es) == es[0].after;
      WalksOfBlanks(es[0].after);
    } else {
      var x := ListText(es[1..]);
      TrimLeft(es[0].after, "," + x);
      WalksIgnoreBlanks(Rest(es), "," + x);
      BehindComma(x);
    }
  }

  /** A list whose first element is empty reads like what follows that element. */
  lemma FirstIsEmpty(es: seq<Element>)
    requires es != [] && es[0].Valid() && es[0].tag == ""
    ensures TrimString(ListText(es)) == TrimString(Rest(es))
    ensures MatchList(ListText(es)) == MatchList(Rest(es)) && NoneMatchList(ListText(es)) == NoneMatchList(Rest(es))
  {
    hide MatchList, NoneMatchList, TrimString, ListText, Rest;
    TextIs(es);
    assert ListText(es) == es[0].before + Rest(es);
    TrimLeft(es[0].before, Rest(es));
    WalksIgnoreBlanks(ListText(es), Rest(es));
  }

  /** A list whose first element is a tag is read past that tag. */
  lemma FirstIsTag(es: seq<Element>)
    requires es != [] && es[0].Valid() && es[0].tag != ""
    ensures var s := ListText(es);
      && MatchList(s) == MatchList(Rest(es)).Cons(es[0].tag)
      && NoneMatchList(s) == NoneMatchList(Rest(es)).Cons(es[0].tag)
      && ScanTag(s).0 == es[0].tag && NoneMatchList(ScanTag(s).1) == NoneMatchList(Rest(es))
      && TrimString(s) != "" && s[0] != '*'
  {
    hide TrimString, ScanTag, ListText, Rest, ValidTag;
    TextIs(es);
    var s := ListText(es);
    ScanFront(es[0].before, es[0].tag, Rest(es));
    TagBegins(es[0].tag);
    WalksIgnoreBlanks(ScanTag(s).1, Rest(es));
    TrimTwice(s);
    ScanIgnoresBlanks(TrimString(s), s);
  }

  /** Behind an element If-None-Match reads on to the next empty one. */
  lemma {:induction false} ReadsLeading(es: seq<Element>)
    requires es != [] && AllElements(es)
    ensures NoneMatchList("," + ListText(es)) == Leading(es)
  {
    hide NoneMatchList, MatchList, ScanTag, TrimString, ListText, Rest;
    BehindComma(ListText(es));
    RestWalks(es);
    if es[0].tag == "" {
      FirstIsEmpty(es);
      EmptyStops(es);
    } else {
      FirstIsTag(es);
      if |es| > 1 {
        ReadsLeading(es[1..]);
      } else {
        assert es[1..] == [];
      }
    }
  }

  lemma EmptyStops(es: seq<Element>)
    requires es != [] && es[0].Valid() && es[0].tag == ""
    ensures var s := ListText(es);
      if |es| == 1 then TrimString(s) == ""
      else TrimString(s) != "" && s[0] != '*' && ScanTag(s).0 == ""
  {
    var b := es[0].before + es[0].after;
    assert Blanks(b);
    TextOfEmpty(es);
    hide ListText, ScanTag, TrimString, MatchList, NoneMatchList, Blanks;
    if |es| == 1 {
      WalksOfBlanks(b);
    } else {
      BlanksThenComma(b, ListText(es[1..]));
    }
  }

  lemma TextOfEmpty(es: seq<Element>)
    requires es != [] && es[0].tag == ""
    ensures var b := es[0].before + es[0].after;
      ListText(es) == if |es| == 1 then b else b + ("," + ListText(es[1..]))
  {
    TextIsBlanks(es[0]);
  }

  lemma TextIsBlanks(e: Element)
    requires e.tag == ""
    ensures e.Text() == e.before + e.after
  {
    assert e.before + "" == e.before;
  }

  lemma BlanksThenComma(b: string, x: string)
    requires Blanks(b)
    ensures var s := b + ("," + x); TrimString(s) != "" && s[0] != '*' && ScanTag(s).0 == ""
  {
    hide ScanTag;
    TrimLeft(b, "," + x);
    var k := TrimEnd("," + x);
    hide TrimString;
    NoTagAtComma(b + ("," + x));
  }

  lemma NoTagAtComma(s: string)
    requires TrimString(s) != "" && TrimString(s)[0] == ','
    ensures ScanTag(s).0 == ""
  {
    hide TrimString, ScanTag, ValidTag;
    var (tag, rest) := ScanTag(s);
    assert tag != "" ==> (tag + rest)[0] == tag[0];
    if tag != "" {
      TagBegins(tag);
    }
  }

  /**
   Every comma-separated list of valid tags and empty elements, with any blanks around them:
   If-Match meets all the tags, If-None-Match those before the first empty element, where one
   empty element at the very start does not count.
   */
  lemma {:induction false} WellFormedLists(es: seq<Element>)
    requires es != [] && AllElements(es)
    ensures MatchList(ListText(es)) == TagList(TagsOf(es), Exhausted)
    ensures NoneMatchList(ListText(es)) == ReadByNoneMatch(es)
  {
    hide NoneMatchList, MatchList, ScanTag, TrimString, ListText, Rest;
    RestWalks(es);
    if es[0].tag == "" {
      FirstIsEmpty(es);
    } else {
      FirstIsTag(es);
    }
    if |es| > 1 {
      WellFormedLists(es[1..]);
      ReadsLeading(es[1..]);
    } else {
      assert es[1..] == [] && TagsOf(es[1..]) == [] && Leading(es[1..]) == TagList([], Exhausted);
    }
  }

  /**
   What both headers come to on such a list. If-Match is decided by all its tags.
   If-None-Match is decided by all its tags exactly when one it reads matches, or none at all
   does and the list does not end in the empty element that stops the walk.
   */
  lemma ListsDecide(es: seq<Element>, current: string)
    requires es != [] && AllElements(es) && ListText(es) != ""
    ensures var h, seen := ListText(es), ReadByNoneMatch(es);
      && MatchCond(h, current) == (if AnyStrong(TagsOf(es), current) then CondTrue else CondFalse)
      && NoneMatchCond(h, current) ==
           (if AnyWeak(seen.tags, current) then CondFalse else if seen.end == Dangling then Panics else CondTrue)
      && (NoneMatchCond(h, current) == (if AnyWeak(TagsOf(es), current) then CondFalse else CondTrue) <==>
            AnyWeak(seen.tags, current) || (!AnyWeak(TagsOf(es), current) && seen.end != Dangling))
  {
    WellFormedLists(es);
    ReadIsListed(es);
    hide MatchList, NoneMatchList, ListText, AnyStrong, ReadByNoneMatch, WeakMatch, StrongMatch;
  }

  lemma ReadIsListed(es: seq<Element>)
    requires es != []
    ensures ReadByNoneMatch(es).end != Star
    ensures forall t :: t in ReadByNoneMatch(es).tags ==> t in TagsOf(es)
  {
    LeadingIsListed(es);
    LeadingIsListed(es[1..]);
  }

  lemma {:induction false} LeadingIsListed(es: seq<Element>)
    ensures Leading(es).end != Star
    ensures forall t :: t in Leading(es).tags ==> t in TagsOf(es)
  {
    if es != [] {
      LeadingIsListed(es[1..]);
    }
  }

  /** An empty element hides the tags behind it from If-None-Match alone. */
  lemma HiddenTag(a: string, b: string)
    requires ValidTag(a) && ValidTag(b)
    ensures NoneMatchList(a + ",," + b) == TagList([a], Garbage)
    ensures !WeakMatch(a, b) ==> NoneMatchCond(a + ",," + b, b) == CondTrue
    ensures MatchList(a + ",," + b) == TagList([a, b], Exhausted)
  {
    hide ValidTag, MatchList, NoneMatchList, WeakMatch;
    TagBegins(a);
    TagBegins(b);
    var last, middle, first := Element("", b, ""), Element("", "", ""), Element("", a, "");
    var es := [first] + ([middle] + [last]);
    EndOfList();
    assert [last] == [last] + [];
    ConsElement(last, []);
    ConsEmpty(middle, [last]);
    ConsElement(first, [middle] + [last]);
    hide TagsOf, Leading, ListText;
    assert ListText(es) == a + ",," + b;
    WellFormedLists(es);
  }

  lemma ConsEmpty(e: Element, more: seq<Element>)
    requires e.tag == "" && more != []
    ensures var es := [e] + more;
      && ListText(es) == e.Text() + "," + ListText(more)
      && TagsOf(es) == TagsOf(more) && Leading(es) == TagList([], Garbage)
      && (e.Valid() && AllElements(more) ==> AllElements(es))
  {
    assert ([e] + more)[1..] == more;
  }

  lemma QuotedIsValid(c: char)
    requires IsTagChar(c)
    ensures ValidTag(['"', c, '"'])
  {
    var t := ['"', c, '"'];
    assert t[0] != 'W' && QuoteAt(t) == 0;
  }

  /** For the tag "b" current, the list "a",,"b" does not count as naming it. */
  lemma HiddenTagExample()
    ensures NoneMatchCond("\"a\"" + ",," + "\"b\"", "\"b\"") == CondTrue
  {
    hide MatchList, NoneMatchList, NoneMatchCond, ValidTag;
    QuotedIsValid('a');
    QuotedIsValid('b');
    assert "\"a\"" == ['"', 'a', '"'] && "\"b\"" == ['"', 'b', '"'];
    assert "\"a\""[1] != "\"b\""[1];
    HiddenTag("\"a\"", "\"b\"");
  }

  predicate AllValid(tags: seq<string>) {
    forall t :: t in tags ==> ValidTag(t)
  }

  /** Tags one after the other, a blank before each but the first, and possibly an empty element. */
  function Spaced(tags: seq<string>, gap: string, tail: seq<Element>): seq<Element> {
    if tags == [] then tail else [Element(gap, tags[0], "")] + Spaced(tags[1..], " ", tail)
  }

  lemma {:induction false} SpacedIs(tags: seq<string>, gap: string, tail: seq<Element>)
    requires tags != [] && AllValid(tags) && Blanks(gap)
    requires tail == [] || tail == [Element("", "", "")]
    ensures var es := Spaced(tags, gap, tail);
      && es != [] && AllElements(es) && es[0].tag != ""
      && ListText(es) == gap + Join(tags, ", ") + (if tail == [] then "" else ",")
      && TagsOf(es) == tags
      && Leading(es) == TagList(tags, if tail == [] then Exhausted else Dangling)
  {
    hide ValidTag, ListText, TagsOf, Leading, Join;
    assert tags[0] in tags && ValidTag(tags[0]);
    TagBegins(tags[0]);
    var e, more := Element(gap, tags[0], ""), Spaced(tags[1..], " ", tail);
    assert tags == [tags[0]] + tags[1..];
    OneTag(tags);
    EndOfList();
    if |tags| == 1 {
      assert tags[1..] == [] && more == tail;
      ConsElement(e, more);
    } else {
      assert AllValid(tags[1..]);
      SpacedIs(tags[1..], " ", tail);
      ConsElement(e, more);
      var j := Join(tags[1..], ", ");
      var end := if tail == [] then "" else ",";
      assert gap + tags[0] + "" + ("," + (" " + j + end)) == gap + (tags[0] + ", " + j) + end;
    }
  }

  lemma OneTag(tags: seq<string>)
    requires tags != []
    ensures Join(tags, ", ") == if |tags| == 1 then tags[0] else tags[0] + ", " + Join(tags[1..], ", ")
  {
  }

  lemma EndOfList()
    ensures TagsOf([]) == [] && Leading([]) == TagList([], Exhausted)
    ensures var empty := [Element("", "", "")];
      TagsOf(empty) == [] && Leading(empty) == TagList([], Dangling) && ListText(empty) == "" && AllElements(empty)
  {
    assert [Element("", "", "")][1..] == [];
  }

  lemma ConsElement(e: Element, more: seq<Element>)
    requires e.tag != ""
    ensures var es := [e] + more;
      && ListText(es) == e.Text() + (if more == [] then "" else "," + ListText(more))
      && TagsOf(es) == [e.tag] + TagsOf(more) && Leading(es) == Leading(more).Cons(e.tag)
      && (e.Valid() && AllElements(more) ==> AllElements(es))
  {
    assert ([e] + more)[1..] == more;
  }

  /**
   On a list of valid tags joined by ", ", If-Match holds exactly when some member strongly
   equals the current tag, and If-None-Match fails exactly when some member weakly does.
   With one comma after the list, If-None-Match panics exactly when no member matches.
   */
  lemma JoinedLists(tags: seq<string>, current: string)
    requires tags != [] && AllValid(tags)
    ensures var h := Join(tags, ", ");
            && MatchCond(h, current) == (if AnyStrong(tags, current) then CondTrue else CondFalse)
            && NoneMatchCond(h, current) == (if AnyWeak(tags, current) then CondFalse else CondTrue)
            && MatchCond(h + ",", current) == MatchCond(h, current)
            && NoneMatchCond(h + ",", current) == (if AnyWeak(tags, current) then CondFalse else Panics)
  {
    hide ValidTag, ListText, Join, MatchCond, NoneMatchCond, AnyStrong, AnyWeak, Spaced, TagsOf, Leading;
    var h, empty := Join(tags, ", "), [Element("", "", "")];
    SpacedIs(tags, "", []);
    SpacedIs(tags, "", empty);
    assert "" + h + "" == h && "" + h + "," == h + ",";
    WellFormedLists(Spaced(tags, "", []));
    JoinIsText(tags);
    ListsDecide(Spaced(tags, "", []), current);
    ListsDecide(Spaced(tags, "", empty), current);
  }

  lemma JoinIsText(tags: seq<string>)
    requires tags != [] && AllValid(tags)
    ensures Join(tags, ", ") != ""
  {
    assert tags[0] in tags;
  }

  /** A star at the front names every current tag, or the lack of one, in both headers. */
  lemma StarNamesAll(header: string, current: string)
    requires TrimString(header) != "" && TrimString(header)[0] == '*'
    ensures MatchCond(header, current) == CondTrue
    ensures NoneMatchCond(header, current) == CondFalse
  {
    TrimOfNothing();
    hide TrimString, ScanTag;
  }

  /** Text that begins with neither a comma, a star nor a tag names nothing in either header. */
  lemma GarbageNamesNothing(header: string, current: string)
    requires TrimString(header) != "" && TrimString(header)[0] != ',' && TrimString(header)[0] != '*'
    requires ScanTag(header).0 == ""
    ensures MatchCond(header, current) == CondFalse
    ensures NoneMatchCond(header, current) == CondTrue
  {
    TrimOfNothing();
    ScanTrimmed(header);
    hide TrimString, ScanTag;
  }

  lemma ScanTrimmed(s: string)
    ensures ScanTag(TrimString(s)) == ScanTag(s)
  {
    TrimTwice(s);
    ScanIgnoresBlanks(TrimString(s), s);
  }

  // ------------------------------------------------- where If-None-Match panics

  /** Trimming text that ends in a comma keeps the blanks before the comma. */
  lemma {:induction false} TrimWithComma(x: string) returns (w: string)
    ensures TrimString(x + ",") == TrimString(x) + w + "," && Blanks(w)
    ensures TrimString(x) == "" ==> w == ""
    ensures |TrimString(x)| + |w| <= |x|
    decreases |x|
  {
    if x == "" {
      w := "";
    } else if IsAsciiSpace(x[0]) {
      assert (x + ",")[1..] == x[1..] + ",";
      w := TrimWithComma(x[1..]);
    } else {
      assert (x + ",")[|x|] == ',';
      var k := TrimEnd(x);
      w := x[k..];
      assert x == x[..k] + w;
    }
  }

  /** A comma at the end of the text changes nothing about the tag at its front. */
  lemma ScanWithComma(x: string) returns (w: string)
    ensures Blanks(w) && ScanTag(x + ",").0 == ScanTag(x).0
    ensures ScanTag(x).0 != "" ==> ScanTag(x + ",").1 == ScanTag(x).1 + w + ","
    ensures |ScanTag(x).0| + |ScanTag(x).1| + |w| <= |x|
    ensures TrimString(x + ",") == TrimString(x) + w + "," && (TrimString(x) == "" ==> w == "")
  {
    w := TrimWithComma(x);
    hide TrimString, ScanTag, ValidTag;
    var (tag, rest) := ScanTag(x);
    if tag != "" {
      assert TrimString(x + ",") == tag + (rest + w + ",");
      TagInComma(x, tag, rest + w + ",");
    } else {
      NoTagInComma(x, w);
    }
  }

  lemma NoTagInComma(x: string, w: string)
    requires ScanTag(x).0 == "" && Blanks(w) && TrimString(x + ",") == TrimString(x) + w + ","
    ensures ScanTag(x + ",").0 == ""
  {
    hide TrimString, ScanTag, ValidTag;
    var t := TrimString(x);
    var (other, after) := ScanTag(x + ",");
    if other != "" {
      TagBegins(other);
      PrefixInComma(t, w, other, after);
    }
  }

  lemma PrefixInComma(t: string, w: string, tag: string, rest: string)
    requires t + w + "," == tag + rest && Blanks(w) && tag != "" && tag[|tag| - 1] == '"'
    ensures |tag| <= |t| && t[..|tag|] == tag
  {
    var s := t + w + ",";
    forall i | |t| <= i < |s|
      ensures s[i] != '"'
    {
      assert s[i] == (w + ",")[i - |t|];
    }
    assert s[|tag| - 1] == '"';
    assert s[..|tag|] == tag && t[..|tag|] == s[..|tag|];
  }

  lemma TagInComma(x: string, tag: string, rest: string)
    requires ValidTag(tag) && TrimString(x + ",") == tag + rest
    ensures ScanTag(x + ",") == (tag, rest)
  {
    hide ScanTag;
    TagBegins(tag);
    ScanTagOf(tag, rest);
    TrimTwice(x + ",");
    ScanIgnoresBlanks(tag + rest, x + ",");
  }

  /** How the walk of If-None-Match ends when a comma is put behind the text. */
  function WithComma(end: ListEnd): ListEnd {
    match end
    case Exhausted => Dangling
    case Dangling => Garbage
    case Star => Star
    case Garbage => Garbage
  }

  /** One step of the walk, on text without blanks around it. */
  lemma NoneMatchStep(s: string, u: string)
    requires TrimString(s) != ""
    requires u == if TrimString(s)[0] == ',' then TrimString(s)[1..] else TrimString(s)
    ensures NoneMatchList(s) ==
      if u == "" then TagList([], Dangling)
      else if u[0] == '*' then TagList([], Star)
      else if ScanTag(u).0 == "" then TagList([], Garbage)
      else NoneMatchList(ScanTag(u).1).Cons(ScanTag(u).0)
  {
    hide TrimString, ScanTag;
  }

  lemma {:induction false} CommaAdded(q: string)
    ensures NoneMatchList(q + ",") == TagList(NoneMatchList(q).tags, WithComma(NoneMatchList(q).end))
    decreases |q|
  {
    var t := TrimString(q);
    var w := TrimWithComma(q);
    hide TrimString, ScanTag, NoneMatchList;
    if t == "" {
      assert t + w + "," == ",";
      TrimOfNothing();
      ShortWalks();
      WalksIgnoreBlanks(q, "");
      WalksIgnoreBlanks(q + ",", ",");
    } else {
      var u := if t[0] == ',' then t[1..] else t;
      var u' := u + w + ",";
      assert (t + w + ",")[0] == t[0] && (t + w + ",")[1..] == t[1..] + w + ",";
      assert u' == if t[0] == ',' then (t + w + ",")[1..] else t + w + ",";
      NoneMatchStep(q, u);
      NoneMatchStep(q + ",", u');
      if u == "" {
        assert u' == w + ",";
        CommaBehindBlanks(w);
      } else if u[0] != '*' {
        TrimRight(u, w);
        ScanIgnoresBlanks(u + w, u);
        var v := ScanWithComma(u + w);
        var (tag, rest) := ScanTag(u);
        if tag != "" {
          TrimRight(rest, v);
          WalksIgnoreBlanks(rest + v, rest);
          CommaAdded(rest + v);
        }
      }
    }
  }

  lemma ShortWalks()
    ensures TrimString(",") == ","
    ensures NoneMatchList("") == TagList([], Exhausted) && NoneMatchList(",") == TagList([], Dangling)
  {
    assert ","[1..] == "";
  }

  lemma CommaBehindBlanks(w: string)
    requires Blanks(w)
    ensures var s := w + ","; s[0] != '*' && ScanTag(s).0 == ""
  {
    hide ScanTag;
    TrimLeft(w, ",");
    ShortWalks();
    NoTagAtComma(w + ",");
  }

  /** Text that does not end in a comma cannot make the walk run off its end. */
  lemma {:induction false} DanglingEndsInComma(s: string)
    requires NoneMatchList(s).end == Dangling
    ensures var t := TrimString(s); t != "" && t[|t| - 1] == ','
    decreases |s|
  {
    hide ScanTag, TrimString;
    var t := TrimString(s);
    assert t != "";
    var u := if t[0] == ',' then t[1..] else t;
    if u != "" {
      var (tag, rest) := ScanTag(u);
      DanglingEndsInComma(rest);
      SameLastByte(u);
      SameLastByte(rest);
      assert TrimString(u) == tag + rest;
    }
  }

  /** Trimming on the right removes blanks only, so text that ends in no blank keeps its end. */
  lemma {:induction false} SameLastByte(s: string)
    ensures var t := TrimString(s);
            t != "" && !IsAsciiSpace(s[|s| - 1]) ==> s[|s| - 1] == t[|t| - 1]
    decreases |s|
  {
    if s != "" && IsAsciiSpace(s[0]) {
      SameLastByte(s[1..]);
    }
  }

  /** The trimmed header up to a comma at its end, if it ends in one. */
  function BeforeLastComma(header: string): Option<string> {
    var t := TrimString(header);
    if t != "" && t[|t| - 1] == ',' then Some(t[..|t| - 1]) else None
  }

  /**
   The walk runs off its text exactly when the text ends in one comma more than a text that the
   walk reads to its end.
   */
  lemma DanglingExactly(s: string)
    ensures NoneMatchList(s).end == Dangling <==>
      BeforeLastComma(s).Some? && NoneMatchList(BeforeLastComma(s).value).end == Exhausted
    ensures NoneMatchList(s).end == Dangling ==> NoneMatchList(s).tags == NoneMatchList(BeforeLastComma(s).value).tags
  {
    var t := TrimString(s);
    TrimTwice(s);
    WalksIgnoreBlanks(s, t);
    hide TrimString, NoneMatchList;
    if t != "" && t[|t| - 1] == ',' {
      var q := t[..|t| - 1];
      assert t == q + ",";
      CommaAdded(q);
    } else if NoneMatchList(s).end == Dangling {
      DanglingEndsInComma(s);
    }
  }

  /** So the condition panics exactly when such a comma ends the header and no tag before it matches. */
  lemma PanicsExactly(header: string, current: string)
    ensures NoneMatchCond(header, current) == Panics <==>
      && BeforeLastComma(header).Some?
      && NoneMatchList(BeforeLastComma(header).value).end == Exhausted
      && !AnyWeak(NoneMatchList(BeforeLastComma(header).value).tags, current)
  {
    DanglingExactly(header);
    hide NoneMatchList, AnyWeak;
    assert header == "" ==> TrimString(header) == "";
  }
}

/**
 URL paths: Go's path.Clean and path.Base on rooted paths, and the resolution of a relative
 reference against a path (section 5.2 of RFC 3986).
 */
module Paths {
  import opened GoStrings

  /** strings.LastIndexByte: the last position of `c`, or -1. */
  function LastIndexByte(s: string, c: char): (i: int)
    ensures -1 <= i < |s|
    ensures i >= 0 ==> s[i] == c
    ensures forall k :: i < k < |s| ==> s[k] != c
  {
    if s == "" then -1 else if s[|s| - 1] == c then |s| - 1 else LastIndexByte(s[..|s| - 1], c)
  }

  lemma LastIndexIs(s: string, c: char, p: nat)
    requires p < |s| && s[p] == c && c !in s[p + 1..]
    ensures LastIndexByte(s, c) == p
  {
    hide LastIndexByte;
    forall i | p < i < |s|
      ensures s[i] != c
    {
      assert s[p + 1..][i - p - 1] == s[i];
    }
  }

  lemma LastIndexAt(pre: string, c: char, post: string)
    requires c !in post
    ensures LastIndexByte(pre + [c] + post, c) == |pre|
  {
    hide LastIndexByte;
    var s := pre + [c] + post;
    assert s[|pre| + 1..] == post;
    LastIndexIs(s, c, |pre|);
  }

  // ------------------------------------------------------------ Go's path package

  /** The elements that remain when "", "." and ".." are worked off from the left. */
  function CleanStack(segs: seq<string>): seq<string> {
    if segs == [] then []
    else
      var (before, last) := (CleanStack(segs[..|segs| - 1]), segs[|segs| - 1]);
      if last == "" || last == "." then before
      else if last == ".." then (if before == [] then [] else before[..|before| - 1])
      else before + [last]
  }

  /** path.Clean of a path that begins with a slash. */
  function Clean(path: string): string
    requires HasPrefix(path, "/")
  {
    "/" + Join(CleanStack(Split(path[1..], '/')), "/")
  }

  function TrimSlashes(path: string): string {
    if path != "" && path[|path| - 1] == '/' then TrimSlashes(path[..|path| - 1]) else path
  }

  /** path.Base */
  function Base(path: string): string {
    if path == "" then "."
    else
      var p := TrimSlashes(path);
      var last := p[LastIndexByte(p, '/') + 1..];
      if last == "" then "/" else last
  }

  // ------------------------------------------------------------- RFC 3986

  /** remove_dot_segments (section 5.2.4) on the segments of an absolute path. */
  function DotStack(segs: seq<string>): seq<string> {
    if segs == [] then []
    else
      var (before, last) := (DotStack(segs[..|segs| - 1]), segs[|segs| - 1]);
      if last == "." then before
      else if last == ".." then (if before == [] then [] else before[..|before| - 1])
      else before + [last]
  }

  function RemoveDots(path: string): string
    requires HasPrefix(path, "/")
  {
    var segs := Split(path[1..], '/');
    var last := segs[|segs| - 1];
    "/" + Join(DotStack(segs) + (if last == "." || last == ".." then [""] else []), "/")
  }

  /** The path of a reference: what precedes its query. */
  function RefPath(ref: string): string {
    var q := IndexByte(ref, '?');
    if q < 0 then ref else ref[..q]
  }

  /** Section 5.2.2 and 5.2.3 for a reference without scheme, authority or fragment. */
  function Resolve(base: string, ref: string): (path: string)
    requires HasPrefix(base, "/")
    ensures HasPrefix(path, "/")
  {
    var p := RefPath(ref);
    if p == "" then base
    else if HasPrefix(p, "/") then RemoveDots(p)
    else RemoveDots(base[..LastIndexByte(base, '/') + 1] + p)
  }

  // -------------------------------------------------------------- plain paths

  /** A segment that is not empty, not dot-prefixed and needs no escape. */
  predicate Plain(seg: string) {
    && seg != "" && seg[0] != '.'
    && '/' !in seg && '?' !in seg && '#' !in seg && '%' !in seg && ':' !in seg
  }

  predicate AllPlain(segs: seq<string>) {
    forall i :: 0 <= i < |segs| ==> Plain(segs[i])
  }

  /** "/a/b/last"; an empty last element makes it "/a/b/". */
  function PathOf(init: seq<string>, last: string): (path: string)
    ensures HasPrefix(path, "/")
  {
    "/" + Prepend(init, '/', last)
  }

  lemma {:induction false} CleanPlain(segs: seq<string>)
    requires AllPlain(segs)
    ensures CleanStack(segs) == segs && DotStack(segs) == segs
  {
    if segs != [] {
      var n := |segs| - 1;
      CleanPlain(segs[..n]);
      assert segs[n] != "" && segs[n] != "." && segs[n] != "..";
      assert segs == segs[..n] + [segs[n]];
    }
  }

  predicate Dots(seg: string) {
    seg == "" || seg == "." || seg == ".."
  }

  lemma {:induction false} SameCleaned(a: seq<string>, b: seq<string>, rest: seq<string>)
    requires CleanStack(a) == CleanStack(b)
    ensures CleanStack(a + rest) == CleanStack(b + rest)
  {
    if rest == [] {
      assert a + rest == a && b + rest == b;
    } else {
      var n := |rest| - 1;
      SameCleaned(a, b, rest[..n]);
      InitOfConcat(a, rest);
      InitOfConcat(b, rest);
    }
  }

  lemma InitOfConcat<T>(a: seq<T>, b: seq<T>)
    requires b != []
    ensures (a + b)[..|a + b| - 1] == a + b[..|b| - 1] && (a + b)[|a + b| - 1] == b[|b| - 1]
  {
  }

  /**
   Anywhere in a path, empty and "." segments mean nothing and ".." takes back the segment before
   it, or nothing at the root; so no cleaned path has any of them, and none leads out of the root.
   */
  lemma CleanDots(a: seq<string>, seg: string, rest: seq<string>)
    ensures CleanStack(a + [""] + rest) == CleanStack(a + rest) == CleanStack(a + ["."] + rest)
    ensures CleanStack([".."] + rest) == CleanStack(rest)
    ensures !Dots(seg) ==> CleanStack(a + [seg] + [".."] + rest) == CleanStack(a + rest)
    ensures forall s :: s in CleanStack(a) ==> !Dots(s)
  {
    CleanSnoc(a, "");
    CleanSnoc(a, ".");
    CleanSnoc(a, seg);
    CleanSnoc(a + [seg], "..");
    CleanSnoc([], "..");
    CleanedSegments(a);
    assert [] + [".."] == [".."] && [] + rest == rest;
    hide CleanStack;
    SameCleaned(a + [""], a, rest);
    SameCleaned(a + ["."], a, rest);
    SameCleaned([".."], [], rest);
    if !Dots(seg) {
      SameCleaned(a + [seg] + [".."], a, rest);
    }
  }

  lemma CleanSnoc(a: seq<string>, seg: string)
    ensures CleanStack(a + [seg]) ==
            var before := CleanStack(a);
            if seg == "" || seg == "." then before
            else if seg == ".." then (if before == [] then [] else before[..|before| - 1])
            else before + [seg]
  {
    InitOfConcat(a, [seg]);
    assert a + [] == a;
  }

  lemma {:induction false} CleanedSegments(a: seq<string>)
    ensures forall s :: s in CleanStack(a) ==> !Dots(s)
  {
    if a != [] {
      CleanedSegments(a[..|a| - 1]);
    }
  }

  lemma SplitPath(init: seq<string>, rest: string)
    requires AllPlain(init)
    ensures Split(PathOf(init, rest)[1..], '/') == init + Split(rest, '/')
  {
    assert PathOf(init, rest)[1..] == Prepend(init, '/', rest);
    SplitOfPrepend(init, '/', rest);
  }

  lemma SplitPlain(last: string)
    requires last == "" || Plain(last)
    ensures Split(last, '/') == [last]
  {
  }

  /** path.Clean drops the trailing slash of a plain path and changes nothing else. */
  lemma CleanOfPath(init: seq<string>, last: string)
    requires AllPlain(init) && (last == "" || Plain(last))
    ensures Clean(PathOf(init, last)) == "/" + Join(if last == "" then init else init + [last], "/")
  {
    hide Split, PathOf;
    SplitPath(init, last);
    SplitPlain(last);
    InitOfSnoc(init, last);
    CleanPlain(init);
  }

  lemma PathOfSnoc(init: seq<string>, last: string)
    ensures PathOf(init + [last], "") == PathOf(init, last) + "/"
  {
    PrependConcat(init, [last], '/', "");
    assert Prepend([last], '/', "") == last + "/";
    PrependAppend(init, last, "/");
  }

  lemma BaseOfPath(init: seq<string>, last: string)
    requires AllPlain(init) && (last == "" || Plain(last))
    ensures last != "" ==> Base(PathOf(init, last)) == last
    ensures last == "" && init != [] ==> Base(PathOf(init, last)) == init[|init| - 1]
  {
    if last != "" {
      LastElement(init, last);
    } else if init != [] {
      var n := |init| - 1;
      assert init == init[..n] + [init[n]];
      PathOfSnoc(init[..n], init[n]);
      LastElement(init[..n], init[n]);
    }
  }

  lemma {:induction false} PrependAppend(parts: seq<string>, rest: string, more: string)
    ensures Prepend(parts, '/', rest + more) == Prepend(parts, '/', rest) + more
  {
    if parts != [] {
      PrependAppend(parts[1..], rest, more);
      ConcatAssoc(parts[0] + ['/'], Prepend(parts[1..], '/', rest), more);
    }
  }

  lemma {:induction false} PrependEnds(parts: seq<string>, rest: string)
    ensures Prepend(parts, '/', rest) == Prepend(parts, '/', "") + rest
  {
    PrependAppend(parts, "", rest);
    assert "" + rest == rest;
  }

  /** Up to and with its last slash, a plain path is its directory. */
  lemma LastSlash(init: seq<string>, last: string)
    requires last == "" || Plain(last)
    ensures var p := PathOf(init, last);
            p[..LastIndexByte(p, '/') + 1] == PathOf(init, "") && p[LastIndexByte(p, '/') + 1..] == last
  {
    var dir := PathOf(init, "");
    assert PathOf(init, last) == dir + last by { PrependEnds(init, last); }
    EndsInSlash(init);
    var pre := dir[..|dir| - 1];
    assert dir == pre + ['/'];
    LastIndexAt(pre, '/', last);
    SplitAt(dir, last);
  }

  lemma SplitAt(a: string, b: string)
    ensures (a + b)[..|a|] == a && (a + b)[|a|..] == b
  {
  }

  lemma {:induction false} EndsInSlash(init: seq<string>)
    ensures var p := PathOf(init, ""); p[|p| - 1] == '/'
  {
    if init != [] {
      EndsInSlash(init[1..]);
    }
  }

  lemma LastElement(init: seq<string>, last: string)
    requires Plain(last)
    ensures Base(PathOf(init, last)) == last && Base(PathOf(init, last) + "/") == last
  {
    LastSlash(init, last);
    PrependEnds(init, last);
    var p := PathOf(init, last);
    assert p[|p| - 1] == last[|last| - 1];
    hide PathOf, LastIndexByte;
    assert TrimSlashes(p) == p;
    SplitAt(p, "/");
    assert TrimSlashes(p + "/") == p;
  }

  /** Resolving against a plain path puts the reference's segments in place of the last one. */
  lemma ResolveSegments(init: seq<string>, last: string, ref: string)
    requires AllPlain(init) && (last == "" || Plain(last))
    requires RefPath(ref) != "" && !HasPrefix(RefPath(ref), "/")
    ensures Resolve(PathOf(init, last), ref) == RemoveDots(PathOf(init, RefPath(ref)))
  {
    LastSlash(init, last);
    PrependEnds(init, RefPath(ref));
    assert PathOf(init, "") + RefPath(ref) == PathOf(init, RefPath(ref));
  }
}

/**
 How fileserver.go finds the file for a URL: the version stripper, the choice of a
 compressed variant, and the decisions of serveFile, with the redirects they lead to.
 */
module Redirects {
  import opened GoStrings
  import opened Http
  import opened Paths

  // ------------------------------------------------------------ revisioned assets

  /** A component such as "v1001": strip it, and the plain asset's name is left. */
  predicate IsVersion(tok: string) {
    tok != "" && tok[0] == 'v' && ParseInt(tok[1..]).Some?
  }

  /** The first component that is a version, or is empty, at or after position `i`. */
  function FirstStop(toks: seq<string>, i: nat): (k: nat)
    requires i <= |toks|
    ensures i <= k <= |toks|
    ensures k < |toks| ==> toks[k] == "" || IsVersion(toks[k])
    ensures forall j :: i <= j < k ==> toks[j] != "" && !IsVersion(toks[j])
    decreases |toks| - i
  {
    if i == |toks| || toks[i] == "" || IsVersion(toks[i]) then i else FirstStop(toks, i + 1)
  }

  /** The name without its version; None where an empty component makes tok[1:] panic. */
  function Unversioned(name: string): Option<string> {
    var toks := SplitN(name, '.', 5);
    var k := FirstStop(toks, 0);
    if !Contains(name, ".v") || k == |toks| then Some(name)
    else if toks[k] == "" then None
    else Some(Join(toks[..k] + toks[k + 1..], "."))
  }

  /** fileserver.go's revisioned. */
  method Revisioned(name: string) returns (r: Option<string>)
    ensures r == Unversioned(name)
  {
    hide Contains, SplitN, Join, ParseInt;
    if !Contains(name, ".v") {
      return Some(name);
    }
    var toks := SplitN(name, '.', 5);
    var idx := 0;
    while idx < |toks|
      invariant idx <= |toks| && FirstStop(toks, 0) == FirstStop(toks, idx)
    {
      var tok := toks[idx];
      var hasPrefix := HasPrefix(tok, "v");
      if tok == "" {
        return None;
      }
      if hasPrefix && ParseInt(tok[1..]).Some? {
        return Some(Join(toks[..idx] + toks[idx + 1..], "."));
      }
      idx := idx + 1;
    }
    return Some(name);
  }

  /**
   Inserting a version behind one to three ordinary components and stripping it again gives
   back the name, whatever follows.
   */
  lemma StripUndoesInsert(lead: seq<string>, version: nat, rest: string)
    requires 1 <= |lead| <= 3 && version <= MAX_INT64
    requires forall i :: 0 <= i < |lead| ==> lead[i] != "" && '.' !in lead[i] && !IsVersion(lead[i])
    ensures Unversioned(Prepend(lead, '.', "v" + Utoa(version) + "." + rest)) == Some(Prepend(lead, '.', rest))
  {
    var tag := "v" + Utoa(version);
    var tail, more := tag + "." + rest, SplitN(rest, '.', 4 - |lead|);
    VersionTag(version);
    SplitVersioned(lead, tag, rest, [tag] + more, 5);
    VersionIsFound(lead, tail);
    UnversionedOf(Prepend(lead, '.', tail), lead, tag, more);
    JoinTail(lead, rest, 4 - |lead|);
  }

  /** A component that begins with 'v' and goes on with a number. */
  predicate VersionLike(tok: string) {
    HasPrefix(tok, "v") && tok != "" && ParseInt(tok[1..]).Some?
  }

  /**
   Of the first five components the first one that is a version is left out, everything else stays;
   an empty one before it panics, and a name without ".v" is never looked at.
   */
  lemma StripsExactly(name: string, k: nat)
    requires k <= |SplitN(name, '.', 5)|
    requires forall j :: 0 <= j < k ==> SplitN(name, '.', 5)[j] != "" && !VersionLike(SplitN(name, '.', 5)[j])
    ensures !Contains(name, ".v") ==> Unversioned(name) == Some(name)
    ensures var toks := SplitN(name, '.', 5);
      && (k == |toks| ==> Unversioned(name) == Some(name))
      && (k < |toks| && Contains(name, ".v") && toks[k] == "" ==> Unversioned(name).None?)
      && (k < |toks| && Contains(name, ".v") && VersionLike(toks[k]) ==>
            Unversioned(name) == Some(Join(toks[..k] + toks[k + 1..], ".")))
  {
    hide Contains, SplitN, Join, ParseInt;
    var toks := SplitN(name, '.', 5);
    forall j | 0 <= j < |toks|
      ensures VersionLike(toks[j]) <==> IsVersion(toks[j])
    {
      VersionIs(toks[j]);
    }
    StopIs(toks, k);
  }

  lemma VersionIs(tok: string)
    ensures VersionLike(tok) <==> IsVersion(tok)
  {
    hide ParseInt;
  }

  lemma StopIs(toks: seq<string>, k: nat)
    requires k <= |toks|
    requires forall j :: 0 <= j < k ==> toks[j] != "" && !IsVersion(toks[j])
    ensures k == |toks| || toks[k] == "" || IsVersion(toks[k]) ==> FirstStop(toks, 0) == k
  {
    hide IsVersion;
  }

  lemma UnversionedOf(name: string, lead: seq<string>, tag: string, more: seq<string>)
    requires Contains(name, ".v") && IsVersion(tag) && SplitN(name, '.', 5) == lead + ([tag] + more)
    requires forall i :: 0 <= i < |lead| ==> lead[i] != "" && !IsVersion(lead[i])
    ensures Unversioned(name) == Some(Join(lead + more, "."))
  {
    StopAfterLead(lead, tag, more);
    DropMiddle(lead, tag, more);
    assert (lead + ([tag] + more))[|lead|] == tag;
  }

  lemma SplitVersioned(lead: seq<string>, tag: string, rest: string, two: seq<string>, n: nat)
    requires |lead| + 2 <= n && '.' !in tag && two == [tag] + SplitN(rest, '.', n - 1 - |lead|)
    requires forall i :: 0 <= i < |lead| ==> '.' !in lead[i]
    ensures SplitN(Prepend(lead, '.', tag + "." + rest), '.', n) == lead + two
  {
    SplitNStep(tag, '.', rest, n - |lead|);
    SplitNOfPrepend(lead, '.', tag + "." + rest, n);
  }

  lemma VersionTag(version: nat)
    requires version <= MAX_INT64
    ensures var tag := "v" + Utoa(version); IsVersion(tag) && '.' !in tag
  {
    UtoaIsDigits(version);
    var tag := "v" + Utoa(version);
    assert tag[1..] == Utoa(version);
    ParseIntOfItoa(version);
  }

  lemma StopAfterLead(lead: seq<string>, tag: string, more: seq<string>)
    requires forall i :: 0 <= i < |lead| ==> lead[i] != "" && !IsVersion(lead[i])
    requires IsVersion(tag)
    ensures FirstStop(lead + ([tag] + more), 0) == |lead|
  {
    hide IsVersion, FirstStop;
    var toks := lead + ([tag] + more);
    assert toks[|lead|] == tag;
    assert forall i :: 0 <= i < |lead| ==> toks[i] == lead[i];
  }

  lemma DropMiddle<T>(a: seq<T>, x: T, b: seq<T>)
    ensures var s := a + ([x] + b); s[..|a|] + s[|a| + 1..] == a + b
  {
  }

  lemma {:induction false} VersionIsFound(lead: seq<string>, tail: string)
    requires lead != [] && tail != "" && tail[0] == 'v'
    ensures Contains(Prepend(lead, '.', tail), ".v")
  {
    var name := Prepend(lead, '.', tail);
    if |lead| == 1 {
      assert name == lead[0] + ['.'] + tail;
      assert OccursAt(name, ".v", |lead[0]|);
    } else {
      var inner := Prepend(lead[1..], '.', tail);
      VersionIsFound(lead[1..], tail);
      var i :| 0 <= i <= |inner| && OccursAt(inner, ".v", i);
      assert name == lead[0] + ['.'] + inner;
      assert name[i + |lead[0]| + 1..i + |lead[0]| + 3] == inner[i..i + 2];
      assert OccursAt(name, ".v", i + |lead[0]| + 1);
    }
  }

  lemma {:induction false} JoinTail(lead: seq<string>, rest: string, n: nat)
    requires n >= 1
    ensures Join(lead + SplitN(rest, '.', n), ".") == Prepend(lead, '.', rest)
  {
    var more := SplitN(rest, '.', n);
    if lead == [] {
      assert lead + more == more;
      JoinOfSplitN(rest, '.', n);
    } else {
      JoinTail(lead[1..], rest, n);
      ConsConcat(lead, more);
      assert (lead + more)[1..] == lead[1..] + more;
    }
  }

  // ------------------------------------------------------------------ the file tree

  datatype Node = File(content: string, modtime: int) | Directory | Denied

  /** The served tree, by cleaned absolute path; its root is not a plain file. */
  type Tree = t: map<string, Node> | "/" in t ==> !t["/"].File? witness map[]

  /** Dir.Open and Dir.Exists look a name up by its cleaned form. */
  function Lookup(tree: Tree, name: string): Option<Node> {
    var p := Clean("/" + name);
    if p in tree then Some(tree[p]) else None
  }

  function Lower(s: string): string {
    seq(|s|, i requires 0 <= i < |s| => if 'A' <= s[i] <= 'Z' then ((s[i] as int) + 32) as char else s[i])
  }

  predicate Accepts(encs: seq<string>, coding: string) {
    exists i | 0 <= i < |encs| :: TrimSpace(Lower(encs[i])) == coding
  }

  /** A file name to open, with the Content-Encoding it implies. */
  datatype Variant = Variant(name: string, encoding: string)

  /** The variant served for a name; None where stripping its version panics. */
  function VariantOf(tree: Tree, header: Header, name: string): Option<Variant> {
    if !(HasSuffix(name, ".html") || HasSuffix(name, ".js") || HasSuffix(name, ".css")) then Some(Variant(name, ""))
    else
      var plain := Unversioned(name);
      var encs := SplitN(Get(header, AcceptEncoding), ',', 10);
      if plain.None? then None
      else if Accepts(encs, "br") && Lookup(tree, plain.value + ".br").Some? then
        Some(Variant(plain.value + ".br", "br"))
      else if Accepts(encs, "gzip") && Lookup(tree, plain.value + ".gz").Some? then
        Some(Variant(plain.value + ".gz", "gzip"))
      else Some(Variant(plain.value, ""))
  }

  function Encoded(header: Header, encoding: string): Header {
    if encoding == "" then header else header[ContentEncoding := encoding]
  }

  /** fileserver.go's precompressed. */
  method Precompressed(w: ResponseWriter, req: Request, tree: Tree, given: string) returns (v: Option<Variant>)
    modifies w`header
    ensures v == VariantOf(tree, req.header, given)
    ensures w.header == if v.None? then old(w.header) else Encoded(old(w.header), v.value.encoding)
  {
    hide Lookup, Lower, TrimSpace, Unversioned, SplitN;
    var name := given;
    if HasSuffix(name, ".html") || HasSuffix(name, ".js") || HasSuffix(name, ".css") {
      var stripped := Revisioned(name);
      if stripped.None? {
        return None;
      }
      name := stripped.value;
      var useGzip, useBrotli := false, false;
      var encs := SplitN(req.Header(AcceptEncoding), ',', 10);
      for i := 0 to |encs|
        invariant useGzip <==> Accepts(encs[..i], "gzip") && Lookup(tree, name + ".gz").Some?
        invariant w.header == old(w.header)
        invariant useBrotli <==> Accepts(encs[..i], "br") && Lookup(tree, name + ".br").Some?
      {
        AcceptsStep(encs, i, "gzip");
        AcceptsStep(encs, i, "br");
        var enc := TrimSpace(Lower(encs[i]));
        if enc == "gzip" {
          if Lookup(tree, name + ".gz").Some? {
            useGzip := true;
          }
        }
        if enc == "br" {
          if Lookup(tree, name + ".br").Some? {
            useBrotli := true;
          }
        }
      }
      assert encs[..|encs|] == encs;
      if useBrotli {
        w.Set(ContentEncoding, "br");
        return Some(Variant(name + ".br", "br"));
      } else if useGzip {
        w.Set(ContentEncoding, "gzip");
        return Some(Variant(name + ".gz", "gzip"));
      }
    }
    return Some(Variant(name, ""));
  }

  lemma AcceptsStep(encs: seq<string>, i: nat, coding: string)
    requires i < |encs|
    ensures Accepts(encs[..i + 1], coding) <==> Accepts(encs[..i], coding) || TrimSpace(Lower(encs[i])) == coding
  {
    TakeStep(encs, i);
    assert forall k :: 0 <= k < i ==> encs[..i + 1][k] == encs[..i][k];
  }

  /** The encoding is announced if there is one, and no other header changes. */
  lemma EncodingIsAnnounced(header: Header, encoding: string, f: Field)
    ensures Get(Encoded(header, encoding), f) ==
            if f == ContentEncoding && encoding != "" then encoding else Get(header, f)
  {
  }

  /** Pages, scripts and style sheets are looked for without their version and compressed. */
  predicate Compressible(name: string) {
    HasSuffix(name, ".html") || HasSuffix(name, ".js") || HasSuffix(name, ".css")
  }

  predicate AcceptsCoding(header: Header, coding: string) {
    Accepts(SplitN(Get(header, AcceptEncoding), ',', 10), coding)
  }

  /**
   The encoding announced is that of the suffix chosen: brotli exactly when it is accepted and its
   file exists, else gzip exactly when it is and its file does, else none and the plain name.
   */
  lemma VariantExactly(tree: Tree, header: Header, name: string)
    ensures VariantOf(tree, header, name).None? <==> Compressible(name) && Unversioned(name).None?
    ensures !Compressible(name) ==> VariantOf(tree, header, name) == Some(Variant(name, ""))
    ensures Compressible(name) && Unversioned(name).Some? ==>
      var (plain, v) := (Unversioned(name).value, VariantOf(tree, header, name).value);
      var br := AcceptsCoding(header, "br") && Lookup(tree, plain + ".br").Some?;
      var gz := AcceptsCoding(header, "gzip") && Lookup(tree, plain + ".gz").Some?;
      && (v.encoding == "br" <==> br) && (v.encoding == "gzip" <==> gz && !br) && (v.encoding == "" <==> !gz && !br)
      && v.name == plain + (match v.encoding case "br" => ".br" case "gzip" => ".gz" case _ => "")
      && (v.encoding != "" ==> Lookup(tree, v.name).Some?)
  {
    hide Lookup, Unversioned, Accepts, SplitN, HasSuffix;
    if Compressible(name) && Unversioned(name).Some? {
      var plain := Unversioned(name).value;
      assert plain + "" == plain;
    }
  }

  /** A header that lists up to ten codings accepts exactly these, in any letter case. */
  lemma AcceptsListed(codings: seq<string>, coding: string)
    requires 0 < |codings| <= 10
    requires forall c :: c in codings ==> c != "" && ',' !in c && IsGraphic(c[0]) && IsGraphic(c[|c| - 1])
    ensures Accepts(SplitN(Join(codings, ","), ',', 10), coding) <==>
            exists i :: 0 <= i < |codings| && Lower(codings[i]) == coding
  {
    hide TrimSpace, SplitN, Join, Lower;
    SplitNOfJoin(codings, ',', 10);
    forall i | 0 <= i < |codings|
      ensures TrimSpace(Lower(codings[i])) == Lower(codings[i])
    {
      assert codings[i] in codings;
      LowerIsGraphic(codings[i]);
      TrimSpaceOfGraphic(Lower(codings[i]));
    }
  }

  lemma LowerIsGraphic(s: string)
    requires s != "" && IsGraphic(s[0]) && IsGraphic(s[|s| - 1])
    ensures |Lower(s)| == |s| && IsGraphic(Lower(s)[0]) && IsGraphic(Lower(s)[|s| - 1])
  {
  }

  /** Only capital letters change, each into its small one. */
  lemma LowerLetters(s: string, i: nat)
    requires i < |s|
    ensures |Lower(s)| == |s|
    ensures 'A' <= s[i] <= 'Z' ==> 'a' <= Lower(s)[i] <= 'z' && Lower(s)[i] - 'a' == s[i] - 'A'
    ensures !('A' <= s[i] <= 'Z') ==> Lower(s)[i] == s[i]
  {
  }

  // --------------------------------------------------------------------- serveFile

  /** What serveFile does with a request; Crash stands for the panic in revisioned. */
  datatype Route = Redirect(location: string) | Refuse(code: int) | Serve(name: string) | Crash

  function WithQuery(req: Request, path: string): string {
    if req.query == "" then path else path + "?" + req.query
  }

  function ErrorCode(node: Option<Node>): int {
    if node == Some(Denied) then 403 else 404
  }

  /** What the cleaned name stands for; a directory comes with the index file served for it. */
  datatype Target = Hit(name: string) | Dir(index: Route) | Miss(r: Route)

  function TargetOf(tree: Tree, header: Header, name: string): (t: Target)
    ensures t.Miss? ==> !t.r.Redirect?
    ensures t.Dir? ==> !t.index.Redirect?
  {
    if HasSuffix(name, ".php") then Miss(Refuse(403))
    else
      var v := VariantOf(tree, header, name);
      if v.None? then Miss(Crash)
      else
        var node := Lookup(tree, v.value.name);
        if node.None? || node.value.Denied? then Miss(Refuse(ErrorCode(node)))
        else if node.value.File? then Hit(v.value.name)
        else
          var index := VariantOf(tree, header, TrimSuffix(v.value.name, "/") + "/index.html");
          if index.None? then Dir(Crash)
          else
            var inner := Lookup(tree, index.value.name);
            Dir(if inner.Some? && inner.value.File? then Serve(index.value.name) else Refuse(403))
  }

  predicate EndsWithSlash(path: string)
    requires HasPrefix(path, "/")
  {
    path[|path| - 1] == '/'
  }

  /** The decisions of serveFile, as the file server calls it: `name` is the cleaned path. */
  function RouteOf(tree: Tree, req: Request, name: string): Route
    requires HasPrefix(req.path, "/")
  {
    if Contains(req.path, "/.") then Refuse(403)
    else if HasSuffix(req.path, "/index.html") then Redirect(WithQuery(req, "./"))
    else
      match TargetOf(tree, req.header, name)
      case Miss(r) => r
      case Dir(index) =>
        if EndsWithSlash(req.path) then index else Redirect(WithQuery(req, Base(req.path) + "/"))
      case Hit(file) =>
        if EndsWithSlash(req.path) then Redirect(WithQuery(req, "../" + Base(req.path))) else Serve(file)
  }

  method LocalRedirect(w: ResponseWriter, req: Request, newPath: string)
    modifies w
    ensures w.status == 301 && Get(w.header, Location) == WithQuery(req, newPath)
  {
    var location := newPath;
    if req.query != "" {
      location := location + "?" + req.query;
    }
    w.Set(Location, location);
    w.WriteHeader(301);
  }

  /** fileserver.go's serveFile up to the call of serveContent. */
  method ServeFile(w: ResponseWriter, req: Request, tree: Tree, given: string) returns (r: Route)
    requires HasPrefix(req.path, "/")
    modifies w
    ensures r == RouteOf(tree, req, given)
    ensures r.Redirect? ==> w.status == 301 && Get(w.header, Location) == r.location
    ensures r.Refuse? ==> w.status == r.code
    ensures r.Serve? ==> w.status == old(w.status) && w.body == old(w.body)
  {
    hide VariantOf, Lookup, Contains, HasSuffix, Base, TrimSuffix, WithQuery;
    if Contains(req.path, "/.") {
      w.Error("Action prohibited.", 403);
      return Refuse(403);
    }
    if HasSuffix(req.path, "/index.html") {
      LocalRedirect(w, req, "./");
      return Redirect(Get(w.header, Location));
    }
    if HasSuffix(given, ".php") {
      w.Error("Action prohibited.", 403);
      return Refuse(403);
    }
    var v := Precompressed(w, req, tree, given);
    if v.None? {
      return Crash;
    }
    var name := v.value.name;
    var node := Lookup(tree, name);
    if node.None? || node.value.Denied? {
      w.Error(if node.None? then "404 page not found" else "403 Forbidden", ErrorCode(node));
      return Refuse(ErrorCode(node));
    }
    var d, url := node.value, req.path;
    if d.Directory? {
      if url[|url| - 1] != '/' {
        LocalRedirect(w, req, Base(url) + "/");
        return Redirect(Get(w.header, Location));
      }
    } else {
      if url[|url| - 1] == '/' {
        LocalRedirect(w, req, "../" + Base(url));
        return Redirect(Get(w.header, Location));
      }
    }
    if d.Directory? {
      var index := Precompressed(w, req, tree, TrimSuffix(name, "/") + "/index.html");
      if index.None? {
        return Crash;
      }
      var dd := Lookup(tree, index.value.name);
      if dd.Some? && !dd.value.Denied? {
        name, d := index.value.name, dd.value;
      }
    }
    if d.Directory? {
      w.Error("Action prohibited.", 403);
      return Refuse(403);
    }
    return Serve(name);
  }

  /** The path is refused or redirected before any file is looked for. */
  predicate Settled(req: Request, name: string) {
    Contains(req.path, "/.") || HasSuffix(req.path, "/index.html") || HasSuffix(name, ".php")
  }

  predicate IsFile(tree: Tree, name: string) {
    Lookup(tree, name).Some? && Lookup(tree, name).value.File?
  }

  predicate IsDirectory(tree: Tree, name: string) {
    Lookup(tree, name) == Some(Directory)
  }

  /** The name under which a directory's index page is looked for. */
  function IndexOf(name: string): string {
    TrimSuffix(name, "/") + "/index.html"
  }

  /**
   What is served: a file at a path without a slash at its end is that file's variant, and a
   directory at a path with one is its index page's, if that is a file. Nothing else is served.
   */
  lemma ServesExactly(tree: Tree, req: Request, name: string, file: string)
    requires HasPrefix(req.path, "/")
    ensures var v := VariantOf(tree, req.header, name);
      RouteOf(tree, req, name) == Serve(file) <==>
        && !Settled(req, name) && v.Some? && IsFile(tree, file)
        && (|| (v.value.name == file && !EndsWithSlash(req.path))
            || (&& IsDirectory(tree, v.value.name) && EndsWithSlash(req.path)
                && var index := VariantOf(tree, req.header, IndexOf(v.value.name));
                   index.Some? && index.value.name == file))
  {
    hide VariantOf, Lookup, Contains, HasSuffix, Base, TrimSuffix, WithQuery;
  }

  /** What is refused, and how: 404 for a name that is not there, 403 for everything else. */
  lemma RefusesExactly(tree: Tree, req: Request, name: string)
    requires HasPrefix(req.path, "/")
    ensures var (r, v) := (RouteOf(tree, req, name), VariantOf(tree, req.header, name));
      && (r.Refuse? ==> r.code == 403 || r.code == 404)
      && (r == Refuse(404) <==> !Settled(req, name) && v.Some? && Lookup(tree, v.value.name).None?)
      && (r == Refuse(403) <==>
            || Contains(req.path, "/.")
            || (HasSuffix(name, ".php") && !HasSuffix(req.path, "/index.html"))
            || (!Settled(req, name) && v.Some? && Lookup(tree, v.value.name) == Some(Denied))
            || (&& !Settled(req, name) && v.Some? && IsDirectory(tree, v.value.name) && EndsWithSlash(req.path)
                && var index := VariantOf(tree, req.header, IndexOf(v.value.name));
                   index.Some? && !IsFile(tree, index.value.name)))
  {
    hide VariantOf, Lookup, Contains, HasSuffix, Base, TrimSuffix, WithQuery;
  }

  /** What is redirected: index pages, directories without the slash and files with one. */
  lemma RedirectsExactly(tree: Tree, req: Request, name: string)
    requires HasPrefix(req.path, "/")
    ensures var (r, v) := (RouteOf(tree, req, name), VariantOf(tree, req.header, name));
      r.Redirect? <==>
        && !Contains(req.path, "/.")
        && (|| HasSuffix(req.path, "/index.html")
            || (!Settled(req, name) && v.Some? && IsDirectory(tree, v.value.name) && !EndsWithSlash(req.path))
            || (!Settled(req, name) && v.Some? && IsFile(tree, v.value.name) && EndsWithSlash(req.path)))
  {
    hide VariantOf, Lookup, Contains, HasSuffix, Base, TrimSuffix, WithQuery;
  }

  // ------------------------------------------------------------ redirects terminate

  /** The file server's answer for a path, other things about the request being fixed. */
  function Answer(tree: Tree, req: Request, path: string): Route
    requires HasPrefix(path, "/")
  {
    RouteOf(tree, req.(path := path), Clean(path))
  }

  /** A plain path as the redirects see it: "/a/b/last", or "/a/b/" with an empty last element. */
  predicate PlainPath(init: seq<string>, last: string) {
    AllPlain(init) && (last == "" || Plain(last))
  }

  lemma RefPathOf(req: Request, path: string)
    requires '?' !in path
    ensures RefPath(WithQuery(req, path)) == path
  {
    if req.query != "" {
      CutAt(path, '?', req.query);
      assert path + "?" + req.query == path + ['?'] + req.query;
    }
  }

  /** A two-segment reference replaces the last segment of a plain path by its own two. */
  lemma ResolveTwo(req: Request, init: seq<string>, last: string, a: string, b: string)
    requires PlainPath(init, last)
    requires a != "" && '/' !in a && '/' !in b && '?' !in a && '?' !in b && b != "." && b != ".."
    ensures Resolve(PathOf(init, last), WithQuery(req, a + "/" + b)) == "/" + Join(DotStack(init + [a, b]), "/")
  {
    var ref := a + "/" + b;
    RefPathOf(req, ref);
    ResolveSegments(init, last, WithQuery(req, ref));
    SplitPath(init, ref);
    assert Split(ref, '/') == [a, b] by {
      CutAt(a, '/', b);
      assert Split(b, '/') == [b];
    }
    LastOfTwo(init, a, b);
    RemoveDotsOf(PathOf(init, ref), init + [a, b]);
  }

  lemma RemoveDotsOf(path: string, segs: seq<string>)
    requires HasPrefix(path, "/") && Split(path[1..], '/') == segs
    requires segs[|segs| - 1] != "." && segs[|segs| - 1] != ".."
    ensures RemoveDots(path) == "/" + Join(DotStack(segs), "/")
  {
    hide DotStack, Join, Split;
    NothingAdded(DotStack(segs));
  }

  lemma NothingAdded<T>(s: seq<T>)
    ensures s + [] == s
  {
  }

  lemma LastOfTwo<T>(s: seq<T>, a: T, b: T)
    ensures (s + [a, b])[|s| + 1] == b && (s + [a, b])[..|s| + 1] == s + [a]
    ensures s + [a, b] == (s + [a]) + [b]
  {
  }

  /** "./" leads from "/a/b/last" to "/a/b/". */
  lemma ResolveHere(req: Request, init: seq<string>, last: string)
    requires PlainPath(init, last)
    ensures Resolve(PathOf(init, last), WithQuery(req, "./")) == PathOf(init, "")
  {
    assert "." + "/" + "" == "./";
    ResolveTwo(req, init, last, ".", "");
    StackOf(init, ".", "");
    JoinIsPrepend(init, '/', "");
  }

  /** "last/" leads from "/a/b/last" to "/a/b/last/". */
  lemma ResolveSlash(req: Request, init: seq<string>, last: string)
    requires PlainPath(init, last) && last != ""
    ensures Resolve(PathOf(init, last), WithQuery(req, last + "/")) == PathOf(init + [last], "")
  {
    assert last + "/" + "" == last + "/";
    ResolveTwo(req, init, last, last, "");
    StackOf(init, last, "");
    LastOfTwo(init, last, "");
    JoinIsPrepend(init + [last], '/', "");
  }

  /** "../last" leads from "/a/b/last/" to "/a/b/last". */
  lemma ResolveUp(req: Request, init: seq<string>, last: string)
    requires PlainPath(init, last) && last != ""
    ensures Resolve(PathOf(init + [last], ""), WithQuery(req, "../" + last)) == PathOf(init, last)
  {
    var all := init + [last];
    assert ".." + "/" + last == "../" + last;
    ResolveTwo(req, all, "", "..", last);
    StackOf(all, "..", last);
    InitOfSnoc(init, last);
    JoinIsPrepend(init, '/', last);
  }

  /** What dot removal leaves of plain segments followed by the two of a redirect. */
  lemma StackOf(init: seq<string>, a: string, b: string)
    requires AllPlain(init)
    requires a == "." || a == ".." || Plain(a)
    requires b == "" || Plain(b)
    ensures DotStack(init + [a, b])
         == if a == "." then init + [b]
            else if a == ".." then (if init == [] then [] else init[..|init| - 1]) + [b]
            else init + [a] + [b]
  {
    CleanPlain(init);
    LastOfTwo(init, a, b);
    InitOfSnoc(init, a);
  }

  lemma PathSize(init: seq<string>, last: string)
    ensures |PathOf(init, last)| == |PathOf(init, "")| + |last| && |PathOf(init, "")| > 0
    ensures last != "" ==> PathOf(init, last)[|PathOf(init, last)| - 1] == last[|last| - 1]
    ensures last == "" ==> PathOf(init, last)[|PathOf(init, last)| - 1] == '/'
  {
    PrependEnds(init, last);
    EndsInSlash(init);
  }

  lemma CleanRoot()
    ensures Clean("/") == "/" && Clean("//") == "/"
  {
    assert "/"[1..] == "" && Split("", '/') == [""];
    assert CleanStack([""]) == CleanStack([]);
    CutAt("", '/', "");
    assert "//"[1..] == "/" && "" + ['/'] + "" == "/";
    assert Split("/", '/') == ["", ""];
    assert ["", ""][..1] == [""];
  }

  lemma LookupRoot(tree: Tree, req: Request)
    ensures Lookup(tree, "/") == (if "/" in tree then Some(tree["/"]) else None)
    ensures VariantOf(tree, req.header, "/") == Some(Variant("/", ""))
  {
    hide Unversioned, Accepts, Clean;
    CleanRoot();
    assert "/" + "/" == "//";
  }

  lemma RootIsNoFile(tree: Tree, req: Request)
    ensures PathOf([], "") == "/" && !Answer(tree, req, "/").Redirect?
  {
    hide VariantOf, Lookup, Clean, Contains, HasSuffix, TrimSuffix, WithQuery, Base;
    CleanRoot();
    LookupRoot(tree, req);
    NoIndexSuffix("/");
  }

  /** After "/" has been added, the same directory answers without another redirect. */
  lemma SlashSettles(tree: Tree, req: Request, init: seq<string>, last: string)
    ensures PlainPath(init, last) && last != "" && TargetOf(tree, req.header, Clean(PathOf(init, last))).Dir? ==>
              !Answer(tree, req, PathOf(init + [last], "")).Redirect?
  {
    hide TargetOf, Clean, Base, Contains, HasSuffix, PathOf;
    if PlainPath(init, last) && last != "" {
      PathSize(init + [last], "");
      CleanOfPath(init, last);
      CleanOfPath(init + [last], "");
      NoIndexSuffix(PathOf(init + [last], ""));
    }
  }

  lemma NoIndexSuffix(path: string)
    requires path != "" && path[|path| - 1] == '/'
    ensures !HasSuffix(path, "/index.html")
  {
    SuffixEnd(path, "/index.html");
  }

  /** The three reasons for a redirect. */
  lemma WhyRedirect(tree: Tree, req: Request, path: string)
    requires HasPrefix(path, "/") && Answer(tree, req, path).Redirect?
    ensures var (location, target) := (Answer(tree, req, path).location, TargetOf(tree, req.header, Clean(path)));
      || (HasSuffix(path, "/index.html") && !EndsWithSlash(path) && location == WithQuery(req, "./"))
      || (!HasSuffix(path, "/index.html") && target.Dir? && !EndsWithSlash(path) &&
          location == WithQuery(req, Base(path) + "/"))
      || (target.Hit? && EndsWithSlash(path) && location == WithQuery(req, "../" + Base(path)))
  {
    hide TargetOf, Clean, Base, Contains, HasSuffix;
    if EndsWithSlash(path) {
      NoIndexSuffix(path);
    }
  }

  lemma HereIsShorter(req: Request, init: seq<string>, last: string)
    requires PlainPath(init, last) && last != ""
    ensures var path := PathOf(init, last);
      && Resolve(path, WithQuery(req, "./")) == PathOf(init, "")
      && |PathOf(init, "")| < |path|
  {
    ResolveHere(req, init, last);
    PathSize(init, last);
  }

  lemma SlashIsAdded(req: Request, init: seq<string>, last: string)
    requires PlainPath(init, last) && last != ""
    ensures var path := PathOf(init, last);
      && Resolve(path, WithQuery(req, Base(path) + "/")) == PathOf(init + [last], "")
      && PathOf(init + [last], "") == path + "/"
  {
    BaseOfPath(init, last);
    ResolveSlash(req, init, last);
    PathOfSnoc(init, last);
  }

  lemma UpIsShorter(req: Request, init: seq<string>, last: string)
    requires PlainPath(init, last) && last != ""
    ensures var path := PathOf(init + [last], "");
      && Resolve(path, WithQuery(req, "../" + Base(path))) == PathOf(init, last)
      && |PathOf(init, last)| < |path|
  {
    InitOfSnoc(init, last);
    BaseOfPath(init + [last], "");
    ResolveUp(req, init, last);
    PathOfSnoc(init, last);
  }

  /** `from` is answered with a redirect that resolves to `to`. */
  predicate Leads(tree: Tree, req: Request, from: string, to: string)
    requires HasPrefix(from, "/")
  {
    var answer := Answer(tree, req, from);
    answer.Redirect? && Resolve(from, answer.location) == to
  }

  /**
   One redirect from a plain path: resolved, it leads to a plain path that is shorter, or to
   the path with a slash added, where no further redirect follows.
   */
  lemma RedirectStep(tree: Tree, req: Request, init: seq<string>, last: string, next: string)
      returns (init': seq<string>, last': string)
    ensures PlainPath(init, last) && Leads(tree, req, PathOf(init, last), next) ==>
      && PlainPath(init', last') && next == PathOf(init', last')
      && (|| |next| < |PathOf(init, last)|
          || (next == PathOf(init, last) + "/" && |next| > 2 && !Answer(tree, req, next).Redirect?))
  {
    hide Answer, PathOf, Resolve, TargetOf, Clean, Base, WithQuery, HasSuffix, Lookup;
    var path := PathOf(init, last);
    init', last' := init, "";
    if PlainPath(init, last) && Leads(tree, req, path, next) {
      PathSize(init, last);
      WhyRedirect(tree, req, path);
      if last == "" {
        if init == [] {
          RootIsNoFile(tree, req);
        }
        init', last' := init[..|init| - 1], init[|init| - 1];
        SnocOf(init);
        UpIsShorter(req, init', last');
      } else if HasSuffix(path, "/index.html") {
        HereIsShorter(req, init, last);
      } else {
        init' := init + [last];
        SlashIsAdded(req, init, last);
        SlashSettles(tree, req, init, last);
      }
    }
  }

  /** Successive requests of a client that follows every redirect it gets. */
  ghost predicate Chain(tree: Tree, req: Request, hops: seq<string>) {
    && (forall i :: 0 <= i < |hops| ==> HasPrefix(hops[i], "/"))
    && (forall i :: 0 < i < |hops| ==> Leads(tree, req, hops[i - 1], hops[i]))
  }

  /** From any plain path, over any tree and headers, no chain has more requests than the path has bytes. */
  lemma {:induction false} RedirectsTerminate(tree: Tree, req: Request, hops: seq<string>,
                                              init: seq<string>, last: string)
    requires PlainPath(init, last)
    requires hops != [] && hops[0] == PathOf(init, last) && Chain(tree, req, hops)
    ensures |hops| <= |hops[0]|
    decreases |hops|
  {
    hide Answer, PathOf, Resolve;
    if |hops| > 1 {
      assert |hops| > 2 ==> Leads(tree, req, hops[1], hops[2]);
      var init', last' := RedirectStep(tree, req, init, last, hops[1]);
      if |hops[1]| < |hops[0]| {
        ChainTail(tree, req, hops);
        RedirectsTerminate(tree, req, hops[1..], init', last');
      }
    }
  }

  lemma ChainTail(tree: Tree, req: Request, hops: seq<string>)
    requires |hops| > 1 && Chain(tree, req, hops)
    ensures Chain(tree, req, hops[1..])
  {
  }
}

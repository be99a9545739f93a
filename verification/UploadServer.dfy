/**
 uploadme/main.go's handlers over one client's directory, and chunked.js's reader that
 drives them.
 */
module UploadServer {
  import opened GoStrings
  import opened Upload
  import opened UploadSite

  datatype Reply = Reply(code: int, text: string)

  const OK := Reply(200, "OK.")

  datatype Handled = Handled(store: Store, reply: Reply)

  /** What chunk() leaves behind and answers. */
  function HandleChunk(codec: Codec, store: Store, f: string, i: string, total: string, body: string): Handled {
    var n := ParseInt(total);
    var stored := if RecordKey(f) in store then codec.decode(store[RecordKey(f)]) else None;
    var key := PartKey(f, i);
    if f == "" || i == "" || total == "" || n.None? then Handled(store, Reply(400, "bad parameter"))
    else if i != "0" && stored.None? then Handled(store, Reply(500, "no record"))
    else if |body| > MAX_UPLOAD then Handled(store[key := body[..MAX_UPLOAD]], Reply(500, "too large"))
    else
      var m := if i == "0" then Meta(f, n.value, []) else stored.value;
      Handled(store[key := body][RecordKey(f) := codec.encode(m.(parts := m.parts + [|body|]))], OK)
  }

  /**
   What a post comes to: a missing or unreadable parameter is 400 and a missing record 500, both
   changing nothing; a body over the limit is 500 and leaves its first bytes as the part; anything
   else is OK, stores the part and adds its size to the record, a new one for part 0.
   */
  lemma ChunkDecides(codec: Codec, store: Store, f: string, i: string, total: string, body: string)
    requires codec.Faithful()
    ensures var h := HandleChunk(codec, store, f, i, total, body);
      var bad := f == "" || i == "" || total == "" || ParseInt(total).None?;
      var known := i == "0" || (RecordKey(f) in store && codec.decode(store[RecordKey(f)]).Some?);
      && (bad ==> h.reply.code == 400 && h.store == store)
      && (!bad && !known ==> h.reply.code == 500 && h.store == store)
      && (!bad && known && |body| > 1_572_864 ==>
            h.reply.code == 500 && h.store == store[f + "." + i := body[..1_572_864]])
      && (h.reply == Reply(200, "OK.") <==> !bad && known && |body| <= 1_572_864)
      && (h.reply == Reply(200, "OK.") ==>
            var m := if i == "0" then Meta(f, ParseInt(total).value, []) else codec.decode(store[f + ".json"]).value;
            && f + ".json" in h.store
            && codec.decode(h.store[f + ".json"]) == Some(Meta(m.name, m.partCount, m.parts + [|body|]))
            && (i != "json" ==> f + "." + i in h.store && h.store[f + "." + i] == body)
            && forall key :: key != f + "." + i && key != f + ".json" ==>
                 (key in h.store <==> key in store) && (key in store ==> h.store[key] == store[key]))
  {
    hide ParseInt;
    assert (f + "." + i)[|f| + 1..] == i && (f + ".json")[|f| + 1..] == "json";
  }

  /** A post by itself: the three small steps, as far as they go. */
  function Posted(codec: Codec, store: Store, c: Client): (o: Outcome)
    requires c.Valid() && c.stage.Post?
  {
    var a := LoadStep(codec, store, c);
    if !a.client.stage.Loaded? then a
    else
      var b := PartStep(a.store, a.client, a.client.stage.m);
      if !b.client.stage.Stored? then b else RecordStep(codec, b.store, b.client, b.client.stage.m)
  }

  /** What the last two steps of a post leave, once the record is loaded. */
  lemma LastTwoSteps(codec: Codec, store: Store, c: Client, m: Meta)
    requires c.Valid()
    ensures var key, bin, b := PartKey(c.name, Utoa(c.idx)), c.Bin(), PartStep(store, c.(stage := Loaded(m)), m);
      if |bin| > MAX_UPLOAD then b.client.stage.Failed? && b.store == store[key := bin[..MAX_UPLOAD]]
      else
        b.client.stage.Stored? &&
        var o := RecordStep(codec, b.store, b.client, b.client.stage.m);
        && !o.client.stage.Failed?
        && o.store == store[key := bin][RecordKey(c.name) := codec.encode(m.(parts := m.parts + [|bin|]))]
  {
    hide Utoa, PartKey, RecordKey;
  }

  /** The handler is the three small steps of one upload, when a client posts its next slice. */
  lemma HandlerIsThreeSteps(codec: Codec, store: Store, c: Client)
    requires c.Valid() && c.stage.Post?
    ensures var o := Posted(codec, store, c);
      var h := HandleChunk(codec, store, c.name, Utoa(c.idx), Utoa(ChunkCount(|c.file|, c.chunk)), c.Bin());
      h.store == o.store && (h.reply == OK <==> !o.client.stage.Failed?)
  {
    UtoaIsDigits(c.idx);
    UtoaIsDigits(ChunkCount(|c.file|, c.chunk));
    hide Utoa, ParseInt, ChunkCount, PartKey, RecordKey, PartStep, RecordStep;
    var a := LoadStep(codec, store, c);
    if a.client.stage.Loaded? {
      LastTwoSteps(codec, store, c, a.client.stage.m);
    }
  }

  lemma AlonePosts(codec: Codec, store: Store, first: Client, n: nat)
    requires first.Valid() && Alone(codec, store, first, n).client.stage.Post?
    ensures var o := Alone(codec, store, first, n);
            Alone(codec, store, first, n + 3) == Posted(codec, o.store, o.client)
  {
    var o := Alone(codec, store, first, n);
    var a := Alone(codec, store, first, n + 1);
    var b := Alone(codec, store, first, n + 2);
    hide LoadStep, PartStep, RecordStep;
    assert a == ClientStep(codec, o.store, o.client) && b == ClientStep(codec, a.store, a.client);
    assert Alone(codec, store, first, n + 3) == ClientStep(codec, b.store, b.client);
    hide Alone;
    StageAfterLoad(codec, o.store, o.client);
  }

  lemma StageAfterLoad(codec: Codec, store: Store, c: Client)
    requires c.Valid() && c.stage.Post?
    ensures var a := LoadStep(codec, store, c);
      && (a.client.stage.Failed? || a.client.stage.Loaded?)
      && (a.client.stage.Loaded? ==>
            var b := PartStep(a.store, a.client, a.client.stage.m);
            b.client.stage.Failed? || b.client.stage.Stored?)
  {
    hide Utoa, ParseInt, ChunkCount, PartKey, RecordKey;
  }

  lemma {:induction false} AloneAdds(codec: Codec, store: Store, c: Client, m: nat, n: nat)
    requires c.Valid()
    ensures var o := Alone(codec, store, c, m);
            Alone(codec, store, c, m + n) == Alone(codec, o.store, o.client, n)
  {
    hide ClientStep;
    if n > 0 {
      AloneAdds(codec, store, c, m, n - 1);
    }
  }

  // ---------------------------------------------------------------- what status lists

  /** The name status shows for a record file: what precedes the first ".json". */
  function ShownName(key: string): string
    requires HasSuffix(key, ".json")
  {
    var i := Index(key, ".json");
    if i >= 0 then key[..i] else key
  }

  predicate CompleteRecord(codec: Codec, text: string) {
    var m := codec.decode(text);
    m.Some? && |m.value.parts| == m.value.partCount
  }

  /** Some record file in the directory is complete and shown under this name. */
  ghost predicate Listed(codec: Codec, store: Store, f: string) {
    exists key :: key in store && HasSuffix(key, ".json") && CompleteRecord(codec, store[key]) && ShownName(key) == f
  }

  /** A record is shown under its own name exactly when the name does not contain ".json" itself. */
  lemma ShownUnderOwnName(name: string)
    ensures HasSuffix(RecordKey(name), ".json")
    ensures ShownName(RecordKey(name)) == name <==> !Contains(name, ".json")
  {
    var key := RecordKey(name);
    assert OccursAt(key, ".json", |name|);
    var i := Index(key, ".json");
    if !Contains(name, ".json") && i < |name| {
      NotAcross(name, i);
    }
    if Contains(name, ".json") {
      var j :| 0 <= j <= |name| && OccursAt(name, ".json", j);
      assert key[j..j + 5] == name[j..j + 5];
      assert OccursAt(key, ".json", j);
    }
  }

  /** ".json" cannot begin inside a name and end in the ".json" behind it. */
  lemma NotAcross(name: string, i: nat)
    requires i < |name| && OccursAt(RecordKey(name), ".json", i)
    ensures OccursAt(name, ".json", i)
  {
    var key := RecordKey(name);
    var k := if |name| < i + 5 then |name| - i else 0;
    DotComesFirst(k);
    assert key[i..i + 5][k] == key[i + k] && key[|name|] == '.';
    assert name[i..i + 5] == key[i..i + 5];
  }

  lemma DotComesFirst(k: nat)
    requires k < 5
    ensures ".json"[k] == '.' <==> k == 0
  {
  }

  /** The name a record file belongs to. */
  function NameOf(key: string): (name: string)
    requires HasSuffix(key, ".json")
    ensures RecordKey(name) == key
  {
    assert key[..|key| - 5] + ".json" == key;
    key[..|key| - 5]
  }

  /** No complete record in the directory belongs to a name that contains ".json". */
  predicate Tame(codec: Codec, store: Store) {
    forall key :: key in store && HasSuffix(key, ".json") && CompleteRecord(codec, store[key]) ==>
      !Contains(NameOf(key), ".json")
  }

  /** A complete record is one of the name before its suffix, and the other way round. */
  lemma OwnName(codec: Codec, store: Store, key: string)
    requires key in store && HasSuffix(key, ".json")
    ensures CompleteRecord(codec, store[key]) <==> Complete(codec, store, NameOf(key))
  {
  }

  lemma CompleteHasRecord(codec: Codec, store: Store, name: string)
    requires Complete(codec, store, name)
    ensures RecordKey(name) in store && CompleteRecord(codec, store[RecordKey(name)])
    ensures HasSuffix(RecordKey(name), ".json") && NameOf(RecordKey(name)) == name
  {
    ShownUnderOwnName(name);
  }

  /** In a tame directory exactly the complete uploads are listed. */
  lemma TameListing(codec: Codec, store: Store, name: string)
    requires Tame(codec, store)
    ensures Listed(codec, store, name) <==> Complete(codec, store, name)
  {
    hide ShownName, HasSuffix, Contains, Complete, CompleteRecord, RecordKey;
    if Listed(codec, store, name) {
      var key :|
        key in store && HasSuffix(key, ".json") && CompleteRecord(codec, store[key]) && ShownName(key) == name;
      OwnName(codec, store, key);
      ShownUnderOwnName(NameOf(key));
    }
    if Complete(codec, store, name) {
      CompleteHasRecord(codec, store, name);
      ShownUnderOwnName(name);
    }
  }

  /** A complete upload of a name that contains ".json" is not listed. */
  lemma UntameListing(codec: Codec, store: Store, key: string)
    requires key in store && HasSuffix(key, ".json") && CompleteRecord(codec, store[key])
    requires Contains(NameOf(key), ".json")
    ensures Complete(codec, store, NameOf(key)) && !Listed(codec, store, NameOf(key))
  {
    var own := NameOf(key);
    OwnName(codec, store, key);
    hide HasSuffix, Contains, Complete, CompleteRecord, RecordKey, ShownName;
    if Listed(codec, store, own) {
      var other :|
        other in store && HasSuffix(other, ".json") && CompleteRecord(codec, store[other]) && ShownName(other) == own;
      NoShownNameWithJson(other);
    }
  }

  /** What is shown never contains ".json". */
  lemma NoShownNameWithJson(key: string)
    requires HasSuffix(key, ".json")
    ensures !Contains(ShownName(key), ".json")
  {
    var own := NameOf(key);
    assert RecordKey(own) == key;
    assert OccursAt(key, ".json", |own|);
    var i := Index(key, ".json");
    var shown := ShownName(key);
    if Contains(shown, ".json") {
      var j :| 0 <= j <= |shown| && OccursAt(shown, ".json", j);
      assert key[j..j + 5] == shown[j..j + 5];
      assert OccursAt(key, ".json", j);
    }
  }

  /**
   Status lists exactly the complete uploads, whatever names one asks about, if and only if no
   complete record belongs to a name that contains ".json".
   */
  lemma ListedIsComplete(codec: Codec, store: Store)
    ensures (forall name :: Listed(codec, store, name) <==> Complete(codec, store, name)) <==> Tame(codec, store)
  {
    hide Listed, Complete, HasSuffix, Contains, CompleteRecord;
    if Tame(codec, store) {
      forall name
        ensures Listed(codec, store, name) <==> Complete(codec, store, name)
      {
        TameListing(codec, store, name);
      }
    } else {
      var key :| key in store && HasSuffix(key, ".json") && CompleteRecord(codec, store[key])
                 && Contains(NameOf(key), ".json");
      UntameListing(codec, store, key);
    }
  }

  /** The record of "name.json" is shown as "name". */
  lemma ShownAsOther(name: string)
    requires !Contains(name, ".json")
    ensures HasSuffix(RecordKey(name + ".json"), ".json") && ShownName(RecordKey(name + ".json")) == name
  {
    var key := RecordKey(name + ".json");
    ShownUnderOwnName(name + ".json");
    assert key[|name|..|name| + 5] == ".json";
    assert OccursAt(key, ".json", |name|);
    var i := Index(key, ".json");
    if i < |name| {
      OccursBefore(name, i);
      NotAcross(name, i);
    }
  }

  lemma OccursBefore(name: string, i: nat)
    requires i < |name| && OccursAt(RecordKey(name + ".json"), ".json", i)
    ensures OccursAt(RecordKey(name), ".json", i)
  {
    var key := RecordKey(name + ".json");
    assert key[..|name| + 5] == RecordKey(name);
    assert key[i..i + 5] == RecordKey(name)[i..i + 5];
  }

  /** Elsewhere a name can be listed that has no record: any upload of "name.json" is shown as "name". */
  lemma ListedWithoutRecord(codec: Codec, name: string, m: Meta) returns (store: Store)
    requires codec.Faithful() && !Contains(name, ".json") && |m.parts| == m.partCount
    ensures RecordKey(name) !in store && Listed(codec, store, name)
  {
    ShownAsOther(name);
    var key := RecordKey(name + ".json");
    store := map[key := codec.encode(m)];
    assert codec.decode(codec.encode(m)) == Some(m);
    assert |key| != |RecordKey(name)|;
    hide ShownName;
    assert key in store && HasSuffix(key, ".json") && CompleteRecord(codec, store[key]);
  }

  /** Uploads of names without ".json" keep a directory tame. */
  lemma StepStaysTame(codec: Codec, store: Store, c: Client)
    requires c.Valid() && Tame(codec, store) && !Contains(c.name, ".json")
    ensures Tame(codec, ClientStep(codec, store, c).store)
  {
    PartIsNoRecord(c.name, c.idx, c.name);
    assert RecordKey(c.name)[..|RecordKey(c.name)| - 5] == c.name;
    hide Utoa, ParseInt, ChunkCount, PartKey, RecordKey, Contains, HasSuffix;
  }

  lemma {:induction false} RunStaysTame(codec: Codec, store: Store, clients: seq<Client>, schedule: seq<nat>)
    requires AllValid(clients) && Tame(codec, store)
    requires forall u :: 0 <= u < |clients| ==> !Contains(clients[u].name, ".json")
    ensures Tame(codec, Run(codec, store, clients, schedule).store)
  {
    hide ClientStep, Tame;
    if schedule != [] {
      var before, u := schedule[..|schedule| - 1], schedule[|schedule| - 1];
      RunStaysTame(codec, store, clients, before);
      if u < |clients| {
        var s := Run(codec, store, clients, before);
        assert s.clients[u].name == clients[u].name;
        StepStaysTame(codec, s.store, s.clients[u]);
      }
    }
  }

  /**
   "Listed" means complete: among uploads of distinct names without ".json", in a directory
   whose listing was exact, status lists an upload exactly when it is done, or when its first slice
   is not recorded yet and the name was listed before. When it is done its stored parts put
   together are the file.
   */
  lemma ListedMeansWhole(codec: Codec, store: Store, clients: seq<Client>, schedule: seq<nat>, u: nat,
                         name: string, file: string, chunk: nat)
    requires codec.Faithful() && AllValid(clients) && DistinctNames(clients) && u < |clients|
    requires chunk > 0 && file != "" && clients[u] == NewClient(name, file, chunk)
    requires Acceptable(clients[u]) && Tame(codec, store)
    requires forall v :: 0 <= v < |clients| ==> !Contains(clients[v].name, ".json")
    ensures var s, total := Run(codec, store, clients, schedule), ChunkCount(|file|, chunk);
      && (Listed(codec, s.store, name) <==>
            Turns(schedule, u) >= 3 * total || (Turns(schedule, u) < 3 && Listed(codec, store, name)))
      && (Turns(schedule, u) >= 3 * total ==> Reassembles(codec, s.store, name, file, total))
  {
    hide Run, Listed, Reassembles, Tame;
    EndToEnd(codec, store, clients, schedule, u, name, file, chunk);
    RunStaysTame(codec, store, clients, schedule);
    assert clients[u].name == name;
    var s := Run(codec, store, clients, schedule);
    TameListing(codec, s.store, name);
    TameListing(codec, store, name);
    hide Complete;
    if s.clients[u].stage.Done? {
      WholeIsComplete(codec, s.store, name, file, ChunkCount(|file|, chunk));
    }
  }

  lemma WholeIsComplete(codec: Codec, store: Store, name: string, file: string, total: nat)
    requires Reassembles(codec, store, name, file, total)
    ensures Complete(codec, store, name)
  {
  }

  // ------------------------------------------------------------------- the handlers

  class Server {
    const codec: Codec
    var store: Store
    var made: bool // the client's directory exists

    constructor (codec: Codec)
      ensures this.codec == codec && store == map[] && !made
    {
      this.codec := codec;
      store := map[];
      made := false;
    }

    /** chunk() */
    method Chunk(f: string, i: string, total: string, body: string) returns (reply: Reply)
      modifies this
      ensures Handled(store, reply) == HandleChunk(codec, old(store), f, i, total, body)
    {
      hide ParseInt, PartKey, RecordKey;
      if |f| == 0 || |i| == 0 || |total| == 0 {
        return Reply(400, "bad parameter");
      }
      var totalInt := ParseInt(total);
      if totalInt.None? {
        return Reply(400, "bad parameter");
      }
      made := true;
      var jname := RecordKey(f);
      var m := Meta(f, totalInt.value, []);
      if i != "0" {
        if jname !in store {
          return Reply(500, "no record");
        }
        var loaded := codec.decode(store[jname]);
        if loaded.None? {
          return Reply(500, "no record");
        }
        m := loaded.value;
      }
      var fname := PartKey(f, i);
      if fname in store {
        store := store - {fname};
      }
      if |body| > MAX_UPLOAD {
        store := store[fname := body[..MAX_UPLOAD]];
        assert store == old(store)[fname := body[..MAX_UPLOAD]];
        return Reply(500, "too large");
      }
      store := store[fname := body];
      assert store == old(store)[fname := body];
      m := m.(parts := m.parts + [|body|]);
      store := store[jname := codec.encode(m)];
      return OK;
    }

    /** status(): the names shown, given the directory's entries; None stands for an error page. */
    method Status(files: seq<string>) returns (r: Option<seq<string>>)
      requires forall key :: key in files <==> key in store
      ensures r.None? <==>
                made && exists key :: key in store && HasSuffix(key, ".json") && codec.decode(store[key]).None?
      ensures made && r.Some? ==> forall f :: f in r.value <==> Listed(codec, store, f)
      ensures !made ==> r == Some([])
    {
      hide HasSuffix, ShownName;
      if !made {
        return Some([]);
      }
      var fs: seq<string> := [];
      for n := 0 to |files|
        invariant forall k :: 0 <= k < n && HasSuffix(files[k], ".json") ==> codec.decode(store[files[k]]).Some?
        invariant forall f :: f in fs <==>
                    exists k :: 0 <= k < n && HasSuffix(files[k], ".json") &&
                              CompleteRecord(codec, store[files[k]]) && ShownName(files[k]) == f
      {
        var file := files[n];
        assert file in files;
        if !HasSuffix(file, ".json") {
          continue;
        }
        var m := codec.decode(store[file]);
        if m.None? {
          return None;
        }
        if |m.value.parts| == m.value.partCount {
          fs := fs + [ShownName(file)];
        }
      }
      forall f
        ensures f in fs <==> Listed(codec, store, f)
      {
        if Listed(codec, store, f) {
          var key :|
            key in store && HasSuffix(key, ".json") && CompleteRecord(codec, store[key]) && ShownName(key) == f;
          assert key in files;
        }
        if f in fs {
          var k :| 0 <= k < |files| && HasSuffix(files[k], ".json") && CompleteRecord(codec, store[files[k]])
                   && ShownName(files[k]) == f;
          assert files[k] in files;
        }
      }
      return Some(fs);
    }

    /** rm(): the record goes, the parts stay. */
    method Rm(f: string) returns (reply: Reply)
      modifies this`store
      ensures reply == OK <==> f != "" && made && RecordKey(f) in old(store)
      ensures store == if reply == OK then old(store) - {RecordKey(f)} else old(store)
      ensures reply != OK ==> reply.code == if f == "" then 400 else if !made then 404 else 500
    {
      if |f| == 0 {
        return Reply(400, "missing GET[f]");
      }
      if !made {
        return Reply(404, "No such file");
      }
      if RecordKey(f) !in store {
        return Reply(500, "Failed deleting");
      }
      store := store - {RecordKey(f)};
      return OK;
    }
  }

  /** chunkedReader with app.js's fnChunk: slices are posted one by one until one is refused. */
  method ChunkedReader(server: Server, name: string, file: string, chunkSize: nat) returns (done: bool)
    requires chunkSize > 0
    modifies server
    ensures server.codec.Faithful() && file != "" ==>
              && (done <==> Acceptable(NewClient(name, file, chunkSize)))
              && (done ==> Reassembles(server.codec, server.store, name, file, ChunkCount(|file|, chunkSize)))
  {
    hide HandleChunk, Reassembles, Going, Alone, Posted, Utoa, ChunkCount, Acceptable;
    ghost var start, first := server.store, NewClient(name, file, chunkSize);
    NoSteps(server.codec, start, first);
    var total, idx, offset := ChunkCount(|file|, chunkSize), 0, 0;
    ghost var c := first;
    done := false;
    while true
      invariant c == Client(name, file, chunkSize, idx, offset, Post) && c.Valid()
      invariant Alone(server.codec, start, first, 3 * idx) == Outcome(server.store, c)
      invariant idx > 0 ==> offset < |file|
      decreases |file| - offset, idx == 0
    {
      var bin := if offset + chunkSize <= |file| then file[offset..offset + chunkSize] else file[offset..];
      ghost var before := server.store;
      var reply := server.Chunk(name, Utoa(idx), Utoa(total), bin);
      HandlerIsThreeSteps(server.codec, before, c);
      AlonePosts(server.codec, start, first, 3 * idx);
      ghost var o := Posted(server.codec, before, c);
      AfterPost(server.codec, before, c);
      offset := offset + |bin|;
      if reply != OK {
        c := o.client;
        break;
      }
      if offset >= |file| {
        done := true;
        c := o.client;
        break;
      }
      idx := idx + 1;
      c := o.client;
    }
    ReaderEnds(server.codec, start, name, file, chunkSize, 3 * idx + 3);
  }

  lemma NoSteps(codec: Codec, store: Store, c: Client)
    requires c.Valid()
    ensures Alone(codec, store, c, 0) == Outcome(store, c)
  {
  }

  /** Where a client is once a slice has been posted. */
  lemma AfterPost(codec: Codec, store: Store, c: Client)
    requires c.Valid() && c.stage.Post?
    ensures var (o, offset) := (Posted(codec, store, c), c.offset + |c.Bin()|);
      && offset <= |c.file|
      && (o.client.stage.Failed? ||
          o.client == if offset >= |c.file| then c.(offset := offset, stage := Done)
                      else c.(offset := offset, idx := c.idx + 1))
  {
    hide Utoa, ParseInt, ChunkCount, PartKey, RecordKey;
  }

  /** An upload that has ended is whole if it is acceptable, and refused otherwise. */
  lemma ReaderEnds(codec: Codec, store: Store, name: string, file: string, chunk: nat, n: nat)
    requires chunk > 0 && n >= 2
    requires var o := Alone(codec, store, NewClient(name, file, chunk), n).client.stage; o.Done? || o.Failed?
    ensures var (c, o) := (NewClient(name, file, chunk), Alone(codec, store, NewClient(name, file, chunk), n));
      codec.Faithful() && file != "" ==>
        && (o.client.stage.Done? <==> Acceptable(c))
        && (o.client.stage.Done? ==> Reassembles(codec, o.store, name, file, ChunkCount(|file|, chunk)))
  {
    hide ClientStep, Going, Reassembles, Acceptable;
    var c := NewClient(name, file, chunk);
    var o := Alone(codec, store, c, n);
    if codec.Faithful() && file != "" {
      CountIsRight(file, chunk);
      if Acceptable(c) {
        Begins(codec, store, name, file, chunk);
        AloneGoes(codec, store, c, n);
        GoingIsValid(codec, o.store, o.client);
        DoneReassembles(codec, o.store, o.client);
      } else {
        RejectedAtOnce(codec, store, name, file, chunk);
        var two := Alone(codec, store, c, 2);
        AloneAdds(codec, store, c, 2, n - 2);
        FailedStays(codec, two.store, two.client, n - 2);
      }
    }
  }

  lemma {:induction false} FailedStays(codec: Codec, store: Store, c: Client, n: nat)
    requires c.Valid() && c.stage.Failed?
    ensures Alone(codec, store, c, n) == Outcome(store, c)
  {
    if n > 0 {
      FailedStays(codec, store, c, n - 1);
    }
  }
}

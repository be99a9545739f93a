/**
 Chunked upload: the slicing loop of pub/chunked.js and the chunk handler of uploadme/main.go,
 as small steps over one client's directory, a store from file names to bytes.
 */
module Upload {
  import opened GoStrings

  /** Meta of main.go; of a MetaPart only its size. */
  datatype Meta = Meta(name: string, partCount: int, parts: seq<nat>)

  /** encoding/json on Meta; None stands for a decoding error. */
  datatype Codec = Codec(encode: Meta -> string, decode: string -> Option<Meta>) {
    ghost predicate Faithful() {
      forall m :: decode(encode(m)) == Some(m)
    }
  }

  type Store = map<string, string>

  /** maxUploadSize: 1024 * 1024 * 1.5 */
  const MAX_UPLOAD: nat := 1_572_864

  function RecordKey(name: string): string {
    name + ".json"
  }

  function PartKey(name: string, part: string): string {
    name + "." + part
  }

  // -------------------------------------------------------------- cutting a file

  /** The slices of a file, in order; even an empty file has one. */
  function Chunks(file: string, size: nat): (cs: seq<string>)
    requires size > 0
    ensures cs != []
    decreases |file|
  {
    if |file| <= size then [file] else [file[..size]] + Chunks(file[size..], size)
  }

  function Concat(parts: seq<string>): string {
    if parts == [] then "" else parts[0] + Concat(parts[1..])
  }

  function Sizes(parts: seq<string>): (s: seq<nat>)
    ensures |s| == |parts| && forall i :: 0 <= i < |parts| ==> s[i] == |parts[i]|
  {
    seq(|parts|, i requires 0 <= i < |parts| => |parts[i]|)
  }

  function Sum(s: seq<nat>): nat {
    if s == [] then 0 else s[0] + Sum(s[1..])
  }

  /** Math.ceil(file.size / chunkSize) */
  function ChunkCount(size: nat, chunk: nat): nat
    requires chunk > 0
  {
    (size + chunk - 1) / chunk
  }

  lemma {:induction false} ChunksReassemble(file: string, size: nat)
    requires size > 0
    ensures Concat(Chunks(file, size)) == file
    decreases |file|
  {
    if |file| <= size {
      assert Concat([file]) == file + Concat([]);
      assert file + "" == file;
    } else {
      ChunksReassemble(file[size..], size);
      assert file == file[..size] + file[size..];
    }
  }

  lemma {:induction false} SizesAddUp(parts: seq<string>)
    ensures Sum(Sizes(parts)) == |Concat(parts)|
  {
    if parts != [] {
      SizesAddUp(parts[1..]);
      assert Sizes(parts)[1..] == Sizes(parts[1..]);
    }
  }

  lemma DivStep(a: nat, c: nat)
    requires c > 0
    ensures (a + c) / c == a / c + 1
  {
    var q, r := a / c, a % c;
    assert a + c == c * (q + 1) + r;
    DivUnique(a + c, c, q + 1, r);
  }

  lemma DivUnique(a: nat, c: nat, q: nat, r: nat)
    requires c > 0 && r < c && a == c * q + r
    ensures a / c == q
  {
    var q', r' := a / c, a % c;
    assert a == c * q' + r';
    QuotientsOrder(c, q, r, q', r');
    QuotientsOrder(c, q', r', q, r);
  }

  lemma QuotientsOrder(c: nat, q: nat, r: nat, q': nat, r': nat)
    requires r < c
    ensures q < q' ==> c * q + r < c * q' + r'
  {
    if q < q' {
      MulSum(c, q, 1 + (q' - q - 1));
      MulSum(c, 1, q' - q - 1);
      MulNat(c, q' - q - 1);
    }
  }

  lemma MulSum(c: nat, a: nat, b: nat)
    ensures c * (a + b) == c * a + c * b
  {
  }

  lemma MulNat(c: nat, d: nat)
    ensures c * d >= 0
  {
  }

  /** A file that is not empty has as many slices as the client announces. */
  lemma {:induction false} CountIsRight(file: string, size: nat)
    requires size > 0 && file != ""
    ensures |Chunks(file, size)| == ChunkCount(|file|, size)
    decreases |file|
  {
    if |file| <= size {
      DivUnique(|file| + size - 1, size, 1, |file| - 1);
    } else {
      CountIsRight(file[size..], size);
      DivStep(|file| - size + size - 1, size);
    }
  }

  // -------------------------------------------------------------- small steps

  /**
   Where one upload stands: about to post the next slice, the handler having loaded the
   record, the handler having stored the part, or ended.
   */
  datatype Stage = Post | Loaded(m: Meta) | Stored(m: Meta) | Done | Failed

  datatype Client = Client(name: string, file: string, chunk: nat, idx: nat, offset: nat, stage: Stage) {
    predicate Valid() {
      chunk > 0 && offset <= |file|
    }

    /** file.slice(offset, offset + chunkSize) */
    function Bin(): (b: string)
      requires Valid()
    {
      if offset + chunk <= |file| then file[offset..offset + chunk] else file[offset..]
    }
  }

  function NewClient(name: string, file: string, chunk: nat): Client {
    Client(name, file, chunk, 0, 0, Post)
  }

  datatype Outcome = Outcome(store: Store, client: Client)

  /** chunk(): parameters, and the record unless this is part 0. */
  function LoadStep(codec: Codec, store: Store, c: Client): Outcome
    requires c.Valid()
  {
    var key, total := RecordKey(c.name), ParseInt(Utoa(ChunkCount(|c.file|, c.chunk)));
    if c.name == "" || total.None? then Outcome(store, c.(stage := Failed))
    else if Utoa(c.idx) == "0" then Outcome(store, c.(stage := Loaded(Meta(c.name, total.value, []))))
    else if key !in store || codec.decode(store[key]).None? then Outcome(store, c.(stage := Failed))
    else Outcome(store, c.(stage := Loaded(codec.decode(store[key]).value)))
  }

  /** chunk(): the part file, cut off at the size limit. */
  function PartStep(store: Store, c: Client, m: Meta): Outcome
    requires c.Valid()
  {
    var key, bin := PartKey(c.name, Utoa(c.idx)), c.Bin();
    if |bin| > MAX_UPLOAD then Outcome(store[key := bin[..MAX_UPLOAD]], c.(stage := Failed))
    else Outcome(store[key := bin], c.(stage := Stored(m.(parts := m.parts + [|bin|]))))
  }

  /** chunk(): the record, and the client's reaction to "OK." */
  function RecordStep(codec: Codec, store: Store, c: Client, m: Meta): Outcome
    requires c.Valid()
  {
    var offset := c.offset + |c.Bin()|;
    Outcome(store[RecordKey(c.name) := codec.encode(m)],
            if offset >= |c.file| then c.(offset := offset, stage := Done)
            else c.(offset := offset, idx := c.idx + 1, stage := Post))
  }

  function ClientStep(codec: Codec, store: Store, c: Client): Outcome
    requires c.Valid()
  {
    match c.stage
    case Post => LoadStep(codec, store, c)
    case Loaded(m) => PartStep(store, c, m)
    case Stored(m) => RecordStep(codec, store, c, m)
    case Done => Outcome(store, c)
    case Failed => Outcome(store, c)
  }

  lemma StepStaysValid(codec: Codec, store: Store, c: Client)
    requires c.Valid()
    ensures var d := ClientStep(codec, store, c).client;
            d.Valid() && d.name == c.name && d.file == c.file && d.chunk == c.chunk
  {
    hide Utoa, ChunkCount;
  }

  // ------------------------------------------------------- one upload by itself

  /** The parts stored so far are the file's first slices. */
  predicate PartsStored(store: Store, c: Client, n: nat)
    requires c.Valid()
  {
    var cs := Chunks(c.file, c.chunk);
    n <= |cs| && forall k :: 0 <= k < n ==>
      PartKey(c.name, Utoa(k)) in store && store[PartKey(c.name, Utoa(k))] == cs[k]
  }

  /** The record names the announced total and the sizes of the first `n` slices. */
  predicate RecordOf(m: Meta, c: Client, n: nat)
    requires c.Valid()
  {
    var cs := Chunks(c.file, c.chunk);
    n <= |cs| && m == Meta(c.name, |cs|, Sizes(cs)[..n])
  }

  ghost predicate Recorded(codec: Codec, store: Store, c: Client, n: nat)
    requires c.Valid()
  {
    var key := RecordKey(c.name);
    key in store && codec.decode(store[key]).Some? && RecordOf(codec.decode(store[key]).value, c, n)
  }

  /** What is still to be sent is what lies behind the offset. */
  predicate OnTrack(c: Client)
    requires c.Valid()
  {
    var cs := Chunks(c.file, c.chunk);
    && c.idx < |cs|
    && cs[c.idx..] == Chunks(c.file[c.offset..], c.chunk)
    && c.file[c.offset..] != ""
  }

  /** The record so far; before the first part whatever an earlier upload left. */
  ghost predicate RecordSoFar(codec: Codec, store: Store, c: Client)
    requires c.Valid()
  {
    c.idx > 0 ==> Recorded(codec, store, c, c.idx)
  }

  /** The state of an upload that has not failed, whatever the store held when it began. */
  ghost predicate Going(codec: Codec, store: Store, c: Client) {
    c.Valid() &&
    match c.stage
    case Post => OnTrack(c) && PartsStored(store, c, c.idx) && RecordSoFar(codec, store, c)
    case Loaded(m) =>
      OnTrack(c) && PartsStored(store, c, c.idx) && RecordSoFar(codec, store, c) && RecordOf(m, c, c.idx)
    case Stored(m) =>
      OnTrack(c) && PartsStored(store, c, c.idx + 1) && RecordSoFar(codec, store, c) && RecordOf(m, c, c.idx + 1)
    case Done =>
      var n := |Chunks(c.file, c.chunk)|;
      PartsStored(store, c, n) && Recorded(codec, store, c, n)
    case Failed => false
  }

  /** The upload has a name, its slice count is an int64, and no slice exceeds the size limit. */
  predicate Acceptable(c: Client) {
    c.chunk > 0 && c.name != "" && ChunkCount(|c.file|, c.chunk) <= MAX_INT64
    && (c.chunk <= MAX_UPLOAD || |c.file| <= MAX_UPLOAD)
  }

  lemma KeysDiffer(name: string, j: nat, k: nat)
    ensures PartKey(name, Utoa(k)) != RecordKey(name)
    ensures PartKey(name, Utoa(j)) == PartKey(name, Utoa(k)) ==> j == k
  {
    PartIsNoRecord(name, k, name);
    hide Utoa;
    var a, b := PartKey(name, Utoa(j)), PartKey(name, Utoa(k));
    assert a[|name| + 1..] == Utoa(j) && b[|name| + 1..] == Utoa(k);
    if Utoa(j) == Utoa(k) {
      UtoaInjective(j, k);
    }
  }

  /** A part's key ends in a digit, a record's key in "n". */
  lemma PartIsNoRecord(name: string, k: nat, other: string)
    ensures PartKey(name, Utoa(k)) != RecordKey(other)
    ensures !HasSuffix(PartKey(name, Utoa(k)), ".json")
  {
    UtoaIsDigits(k);
    hide Utoa;
    var part := PartKey(name, Utoa(k));
    assert IsDigit(part[|part| - 1]);
    SuffixEnd(part, ".json");
    assert HasSuffix(RecordKey(other), ".json");
  }

  /** The slice about to be posted is the file's next one, and the offset moves on with it. */
  lemma NextSlice(c: Client)
    requires c.Valid() && OnTrack(c)
    ensures var (cs, offset) := (Chunks(c.file, c.chunk), c.offset + |c.Bin()|);
      && cs[c.idx] == c.Bin()
      && offset <= |c.file|
      && (offset == |c.file| <==> c.idx + 1 == |cs|)
      && (offset < |c.file| ==> cs[c.idx + 1..] == Chunks(c.file[offset..], c.chunk))
  {
    var cs, rest := Chunks(c.file, c.chunk), c.file[c.offset..];
    assert cs[c.idx..][0] == cs[c.idx] && cs[c.idx..][1..] == cs[c.idx + 1..];
    if |rest| <= c.chunk {
      assert c.Bin() == rest;
      assert cs[c.idx..] == [rest];
    } else {
      assert c.Bin() == rest[..c.chunk];
      assert rest[c.chunk..] == c.file[c.offset + c.chunk..];
      assert cs[c.idx..][1..] == Chunks(rest[c.chunk..], c.chunk);
    }
  }

  lemma LoadGoes(codec: Codec, store: Store, c: Client)
    requires Going(codec, store, c) && c.stage.Post? && Acceptable(c)
    ensures var o := LoadStep(codec, store, c); Going(codec, o.store, o.client)
  {
    CountIsRight(c.file, c.chunk);
    ParseIntOfItoa(ChunkCount(|c.file|, c.chunk));
    assert Utoa(0) == "0";
    if Utoa(c.idx) == "0" {
      UtoaInjective(c.idx, 0);
    }
    hide Utoa, Chunks, ParseInt, ChunkCount;
  }

  lemma PartGoes(codec: Codec, store: Store, c: Client)
    requires Going(codec, store, c) && c.stage.Loaded? && Acceptable(c)
    ensures var o := PartStep(store, c, c.stage.m); Going(codec, o.store, o.client)
  {
    NextSlice(c);
    forall k: nat
      ensures PartKey(c.name, Utoa(c.idx)) != RecordKey(c.name)
      ensures PartKey(c.name, Utoa(k)) == PartKey(c.name, Utoa(c.idx)) ==> k == c.idx
    {
      KeysDiffer(c.name, k, c.idx);
    }
    hide Utoa, Chunks, PartKey;
    var cs := Chunks(c.file, c.chunk);
    TakeStep(Sizes(cs), c.idx);
  }

  lemma RecordGoes(codec: Codec, store: Store, c: Client)
    requires Going(codec, store, c) && c.stage.Stored? && codec.Faithful()
    ensures var o := RecordStep(codec, store, c, c.stage.m); Going(codec, o.store, o.client)
  {
    NextSlice(c);
    assert codec.decode(codec.encode(c.stage.m)) == Some(c.stage.m);
    forall k: nat
      ensures PartKey(c.name, Utoa(k)) != RecordKey(c.name)
    {
      KeysDiffer(c.name, k, k);
    }
    hide Utoa, Chunks, PartKey, RecordKey;
  }

  lemma StepGoes(codec: Codec, store: Store, c: Client)
    requires Going(codec, store, c) && Acceptable(c) && codec.Faithful()
    ensures var o := ClientStep(codec, store, c); Going(codec, o.store, o.client)
  {
    hide LoadStep, PartStep, RecordStep, Going;
    GoingIsValid(codec, store, c);
    match c.stage {
      case Post => LoadGoes(codec, store, c);
      case Loaded(m) => PartGoes(codec, store, c);
      case Stored(m) => RecordGoes(codec, store, c);
      case Done =>
      case Failed =>
    }
  }

  lemma GoingIsValid(codec: Codec, store: Store, c: Client)
    requires Going(codec, store, c)
    ensures c.Valid() && !c.stage.Failed?
  {
  }

  /** An upload by itself, after some of its steps. */
  function Alone(codec: Codec, store: Store, c: Client, steps: nat): (o: Outcome)
    requires c.Valid()
    ensures o.client.Valid() && o.client.name == c.name && o.client.file == c.file && o.client.chunk == c.chunk
  {
    if steps == 0 then Outcome(store, c)
    else
      var o := Alone(codec, store, c, steps - 1);
      StepStaysValid(codec, o.store, o.client);
      ClientStep(codec, o.store, o.client)
  }

  lemma {:induction false} AloneGoes(codec: Codec, store: Store, c: Client, steps: nat)
    requires Going(codec, store, c) && Acceptable(c) && codec.Faithful()
    ensures var o := Alone(codec, store, c, steps); Going(codec, o.store, o.client)
  {
    hide ClientStep, Going;
    GoingIsValid(codec, store, c);
    if steps > 0 {
      AloneGoes(codec, store, c, steps - 1);
      var o := Alone(codec, store, c, steps - 1);
      StepGoes(codec, o.store, o.client);
    }
  }

  lemma Begins(codec: Codec, store: Store, name: string, file: string, chunk: nat)
    requires chunk > 0 && file != ""
    ensures Going(codec, store, NewClient(name, file, chunk))
  {
    assert file[0..] == file;
    assert Chunks(file, chunk)[0..] == Chunks(file, chunk);
  }

  /** Steps still to be made: three for each slice not yet recorded. */
  function Remaining(c: Client): int
    requires c.Valid()
  {
    var left := 3 * (|Chunks(c.file, c.chunk)| - c.idx);
    match c.stage
    case Post => left
    case Loaded(_) => left - 1
    case Stored(_) => left - 2
    case Done => 0
    case Failed => 0
  }

  lemma StepCounts(codec: Codec, store: Store, c: Client)
    requires Going(codec, store, c) && Acceptable(c) && codec.Faithful()
    ensures var d := ClientStep(codec, store, c).client;
      && Remaining(c) >= 0 && (c.stage.Done? <==> Remaining(c) == 0)
      && (Remaining(c) > 0 ==> d.Valid() && Remaining(d) == Remaining(c) - 1)
  {
    StepGoes(codec, store, c);
    StepStaysValid(codec, store, c);
    if c.stage.Stored? {
      NextSlice(c);
    }
    hide Chunks, Utoa, ChunkCount, ParseInt, PartsStored, Recorded, RecordOf;
  }

  /** The end of an upload that nothing rejects: done after exactly three steps for each slice. */
  lemma {:induction false} AloneFinishes(codec: Codec, store: Store, c: Client, steps: nat)
    requires Going(codec, store, c) && Acceptable(c) && codec.Faithful()
    ensures var o := Alone(codec, store, c, steps);
            Remaining(o.client) == if steps <= Remaining(c) then Remaining(c) - steps else 0
  {
    hide ClientStep, Going, Remaining;
    GoingIsValid(codec, store, c);
    StepCounts(codec, store, c);
    if steps > 0 {
      AloneFinishes(codec, store, c, steps - 1);
      AloneGoes(codec, store, c, steps - 1);
      var o := Alone(codec, store, c, steps - 1);
      StepCounts(codec, o.store, o.client);
      if Remaining(o.client) == 0 {
        DoneStays(codec, o.store, o.client);
      }
    }
  }

  lemma DoneStays(codec: Codec, store: Store, c: Client)
    requires c.Valid() && c.stage.Done?
    ensures ClientStep(codec, store, c) == Outcome(store, c)
  {
  }

  /** An upload that is not acceptable is rejected at its first slice, whatever the store holds. */
  lemma RejectedAtOnce(codec: Codec, store: Store, name: string, file: string, chunk: nat)
    requires chunk > 0 && !Acceptable(NewClient(name, file, chunk))
    ensures Alone(codec, store, NewClient(name, file, chunk), 2).client.stage.Failed?
  {
    var c := NewClient(name, file, chunk);
    assert Utoa(0) == "0" && file[0..] == file;
    assert ParseInt(Utoa(ChunkCount(|file|, chunk))).Some? ==> ChunkCount(|file|, chunk) <= MAX_INT64 by {
      DigitsValueOfUtoa(ChunkCount(|file|, chunk));
    }
    hide ParseInt, ChunkCount, PartKey, RecordKey;
    assert Alone(codec, store, c, 1) == ClientStep(codec, store, c);
    var o := Alone(codec, store, c, 1);
    assert Alone(codec, store, c, 2) == ClientStep(codec, o.store, o.client);
  }

  // ---------------------------------------------------------------- what is stored

  /** The parts name.0, name.1, ... in order. */
  function StoredParts(store: Store, name: string, n: nat): (parts: seq<string>)
    requires forall k :: 0 <= k < n ==> PartKey(name, Utoa(k)) in store
    ensures |parts| == n && forall k :: 0 <= k < n ==> parts[k] == store[PartKey(name, Utoa(k))]
  {
    seq(n, k requires 0 <= k < n => store[PartKey(name, Utoa(k))])
  }

  /** The record is there and as many parts are recorded as were announced: what status looks for. */
  predicate Complete(codec: Codec, store: Store, name: string) {
    var key := RecordKey(name);
    key in store && var m := codec.decode(store[key]); m.Some? && |m.value.parts| == m.value.partCount
  }

  /** The upload's parts put together are the file, and the record fits them. */
  predicate Reassembles(codec: Codec, store: Store, name: string, file: string, total: nat) {
    && (forall k :: 0 <= k < total ==> PartKey(name, Utoa(k)) in store)
    && Concat(StoredParts(store, name, total)) == file
    && Complete(codec, store, name)
    && codec.decode(store[RecordKey(name)]).value
       == Meta(name, total, Sizes(StoredParts(store, name, total)))
    && Sum(Sizes(StoredParts(store, name, total))) == |file|
  }

  lemma DoneReassembles(codec: Codec, store: Store, c: Client)
    requires Going(codec, store, c) && c.stage.Done?
    ensures Reassembles(codec, store, c.name, c.file, |Chunks(c.file, c.chunk)|)
  {
    hide Utoa, PartKey;
    var cs := Chunks(c.file, c.chunk);
    var parts := StoredParts(store, c.name, |cs|);
    AllParts(parts, cs);
    ChunksReassemble(c.file, c.chunk);
    SizesAddUp(cs);
    hide Chunks, Concat, Sum;
    assert Sizes(cs)[..|cs|] == Sizes(cs);
  }

  /** An empty file: one slice of no bytes is recorded against an announced count of none. */
  lemma EmptyFile(codec: Codec, store: Store, name: string, chunk: nat)
    requires chunk > 0 && name != "" && codec.Faithful()
    ensures var o := Alone(codec, store, NewClient(name, "", chunk), 3);
      && o.client.stage.Done? && o.client.Valid()
      && RecordKey(name) in o.store && codec.decode(o.store[RecordKey(name)]) == Some(Meta(name, 0, [0]))
  {
    var c := NewClient(name, "", chunk);
    assert ChunkCount(0, chunk) == 0 && Utoa(0) == "0" && ParseInt("0") == Some(0) by {
      DigitsValueOfUtoa(0);
      ParseIntOfDigits(Utoa(0));
    }
    hide ParseInt, ChunkCount, PartKey, RecordKey, Utoa;
    var a := ClientStep(codec, store, c);
    var b := ClientStep(codec, a.store, a.client);
    assert Alone(codec, store, c, 0) == Outcome(store, c) && Alone(codec, store, c, 1) == a;
    assert Alone(codec, store, c, 2) == b;
    assert c.Bin() == "" && Meta(name, 0, []).parts + [0] == [0];
    assert a.client.stage == Loaded(Meta(name, 0, []));
    assert b.client.stage == Stored(Meta(name, 0, [0]));
  }

  lemma {:induction false} DoneRests(codec: Codec, store: Store, c: Client, k: nat, n: nat)
    requires c.Valid() && k <= n && Alone(codec, store, c, k).client.stage.Done?
    ensures Alone(codec, store, c, n) == Alone(codec, store, c, k)
    decreases n
  {
    hide ClientStep;
    if k < n {
      DoneRests(codec, store, c, k, n - 1);
      var o := Alone(codec, store, c, n - 1);
      DoneStays(codec, o.store, o.client);
    }
  }

  /**
   Every acceptable upload ends well after its three steps a slice, and its name is then complete
   if and only if the file is not empty: an empty one is accepted and never listed.
   */
  lemma CompleteUnlessEmpty(codec: Codec, store: Store, name: string, file: string, chunk: nat, n: nat)
    requires Acceptable(NewClient(name, file, chunk)) && codec.Faithful()
    requires n >= 3 * |Chunks(file, chunk)|
    ensures var o := Alone(codec, store, NewClient(name, file, chunk), n);
      o.client.stage.Done? && (Complete(codec, o.store, name) <==> file != "")
  {
    var c := NewClient(name, file, chunk);
    if file == "" {
      EmptyFile(codec, store, name, chunk);
      DoneRests(codec, store, c, 3, n);
    } else {
      Begins(codec, store, name, file, chunk);
      AloneFinishes(codec, store, c, n);
      AloneGoes(codec, store, c, n);
      AloneKeepsName(codec, store, c, n);
      var o := Alone(codec, store, c, n);
      StepCounts(codec, o.store, o.client);
      DoneReassembles(codec, o.store, o.client);
    }
  }

  lemma {:induction false} AloneKeepsName(codec: Codec, store: Store, c: Client, n: nat)
    requires c.Valid()
    ensures Alone(codec, store, c, n).client.name == c.name
  {
    if n > 0 {
      AloneKeepsName(codec, store, c, n - 1);
      var o := Alone(codec, store, c, n - 1);
      StepStaysValid(codec, o.store, o.client);
      hide ClientStep;
    }
  }

  lemma AllParts<T>(a: seq<T>, b: seq<T>)
    requires |a| == |b| && forall i :: 0 <= i < |a| ==> a[i] == b[i]
    ensures a == b
  {
  }

  /** Once the first slice is recorded, and before the end, status has nothing to list. */
  lemma NotEarly(codec: Codec, store: Store, c: Client)
    requires Going(codec, store, c) && !c.stage.Done? && c.idx > 0
    ensures !Complete(codec, store, c.name)
  {
    hide Utoa, PartKey, Chunks, PartsStored;
  }

  /** Two stores hold the same, or both nothing, under a key. */
  predicate SameAt(s: Store, t: Store, key: string) {
    (key in s <==> key in t) && (key in s ==> s[key] == t[key])
  }

  /** Until the first slice's record is written the one an earlier upload left is untouched. */
  lemma {:induction false} RecordUntouched(codec: Codec, store: Store, c: Client, n: nat)
    requires c.Valid()
    ensures var o := Alone(codec, store, c, n);
      o.client.idx == 0 && !o.client.stage.Done? ==> SameAt(o.store, store, RecordKey(c.name))
  {
    hide ClientStep;
    if n > 0 {
      RecordUntouched(codec, store, c, n - 1);
      var o := Alone(codec, store, c, n - 1);
      OneStepUntouched(codec, o.store, o.client);
    }
  }

  lemma OneStepUntouched(codec: Codec, store: Store, c: Client)
    requires c.Valid()
    ensures var o := ClientStep(codec, store, c);
      o.client.idx == 0 && !o.client.stage.Done? ==>
        c.idx == 0 && !c.stage.Done? && SameAt(o.store, store, RecordKey(c.name))
  {
    KeysDiffer(c.name, c.idx, c.idx);
    hide Utoa, ParseInt, ChunkCount, PartKey, RecordKey;
  }
}

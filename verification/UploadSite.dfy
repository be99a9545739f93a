/**
 Any number of uploads with distinct names, their small steps interleaved in any order over
 one store: each gets what it would have got alone.
 */
module UploadSite {
  import opened GoStrings
  import opened Upload

  datatype Site = Site(store: Store, clients: seq<Client>)

  predicate AllValid(clients: seq<Client>) {
    forall u :: 0 <= u < |clients| ==> clients[u].Valid()
  }

  predicate DistinctNames(clients: seq<Client>) {
    forall u, v :: 0 <= u < v < |clients| ==> clients[u].name != clients[v].name
  }

  /** The clients take steps in the order of the schedule; an unknown number does nothing. */
  function Run(codec: Codec, store: Store, clients: seq<Client>, schedule: seq<nat>): (s: Site)
    requires AllValid(clients)
    ensures |s.clients| == |clients| && AllValid(s.clients)
    ensures forall u :: 0 <= u < |clients| ==> s.clients[u].name == clients[u].name
  {
    if schedule == [] then Site(store, clients)
    else
      var (s, u) := (Run(codec, store, clients, schedule[..|schedule| - 1]), schedule[|schedule| - 1]);
      if u >= |clients| then s
      else
        StepStaysValid(codec, s.store, s.clients[u]);
        var o := ClientStep(codec, s.store, s.clients[u]);
        Site(o.store, s.clients[u := o.client])
  }

  /** How many of the scheduled steps are client `u`'s. */
  function Turns(schedule: seq<nat>, u: nat): nat {
    if schedule == [] then 0
    else Turns(schedule[..|schedule| - 1], u) + if schedule[|schedule| - 1] == u then 1 else 0
  }

  // ------------------------------------------------------------------ locality

  /** Two stores hold the same record and the same parts for a name. */
  ghost predicate Agree(s: Store, t: Store, name: string) {
    SameAt(s, t, RecordKey(name)) && forall k: nat :: SameAt(s, t, PartKey(name, Utoa(k)))
  }

  /** The keys of different names never collide, whatever the names contain. */
  lemma KeysDisjoint(a: string, b: string, j: nat, k: nat)
    requires a != b
    ensures RecordKey(a) != RecordKey(b)
    ensures PartKey(a, Utoa(j)) != RecordKey(b)
    ensures PartKey(a, Utoa(j)) != PartKey(b, Utoa(k))
  {
    PartIsNoRecord(a, j, b);
    assert RecordKey(a)[..|RecordKey(a)| - 5] == a && RecordKey(b)[..|RecordKey(b)| - 5] == b;
    UtoaIsDigits(j);
    UtoaIsDigits(k);
    SplitKey(a, Utoa(j));
    SplitKey(b, Utoa(k));
  }

  /** A part's key has its last dot right behind the name. */
  lemma SplitKey(name: string, digits: string)
    requires AllDigits(digits)
    ensures var key := PartKey(name, digits);
      && key[..|name|] == name && |name| < |key| && key[|name|] == '.'
      && forall i :: |name| < i < |key| ==> key[i] != '.'
  {
  }

  /** A step depends on, and changes, nothing but its own name's keys. */
  lemma StepIsLocal(codec: Codec, s: Store, t: Store, c: Client)
    requires c.Valid() && Agree(s, t, c.name)
    ensures var (o, p) := (ClientStep(codec, s, c), ClientStep(codec, t, c));
            o.client == p.client && Agree(o.store, p.store, c.name)
  {
    hide Utoa, ParseInt, ChunkCount, PartKey, RecordKey;
  }

  lemma StepLeavesOthers(codec: Codec, s: Store, c: Client, other: string)
    requires c.Valid() && other != c.name
    ensures Agree(s, ClientStep(codec, s, c).store, other)
  {
    hide Utoa, ParseInt, ChunkCount, PartKey, RecordKey;
    var t := ClientStep(codec, s, c).store;
    KeysDisjoint(c.name, other, c.idx, 0);
    assert SameAt(s, t, RecordKey(other));
    forall j: nat
      ensures SameAt(s, t, PartKey(other, Utoa(j)))
    {
      KeysDisjoint(other, c.name, j, c.idx);
    }
  }

  lemma AgreeTransitive(s: Store, t: Store, r: Store, name: string)
    requires Agree(s, t, name) && Agree(t, r, name)
    ensures Agree(s, r, name) && Agree(t, s, name)
  {
    hide PartKey, RecordKey, Utoa;
    forall k: nat
      ensures SameAt(s, r, PartKey(name, Utoa(k))) && SameAt(t, s, PartKey(name, Utoa(k)))
    {
      assert SameAt(s, t, PartKey(name, Utoa(k))) && SameAt(t, r, PartKey(name, Utoa(k)));
    }
  }

  /**
   The interleaving theorem: after any schedule, each upload is where it would be by itself
   after its own share of the steps, and the store holds for its name what it would hold then.
   */
  lemma {:induction false} AsIfAlone(codec: Codec, store: Store, clients: seq<Client>, schedule: seq<nat>, u: nat)
    requires AllValid(clients) && DistinctNames(clients) && u < |clients|
    ensures var (s, o) := (Run(codec, store, clients, schedule), Alone(codec, store, clients[u], Turns(schedule, u)));
            s.clients[u] == o.client && Agree(s.store, o.store, clients[u].name)
  {
    hide ClientStep, Agree;
    if schedule == [] {
      AgreeItself(store, clients[u].name);
    } else {
      var before, v := schedule[..|schedule| - 1], schedule[|schedule| - 1];
      AsIfAlone(codec, store, clients, before, u);
      var s, o := Run(codec, store, clients, before), Alone(codec, store, clients[u], Turns(before, u));
      if v == u {
        StepIsLocal(codec, s.store, o.store, s.clients[u]);
      } else if v < |clients| {
        var t := ClientStep(codec, s.store, s.clients[v]).store;
        StepLeavesOthers(codec, s.store, s.clients[v], clients[u].name);
        AgreeTransitive(s.store, t, t, clients[u].name) by { AgreeItself(t, clients[u].name); }
        AgreeTransitive(t, s.store, o.store, clients[u].name);
      }
    }
  }

  lemma AgreeItself(s: Store, name: string)
    ensures Agree(s, s, name)
  {
  }

  // ------------------------------------------------------------------- end to end

  lemma ReassemblesToo(codec: Codec, s: Store, t: Store, name: string, file: string, total: nat)
    requires Agree(s, t, name) && Reassembles(codec, t, name, file, total)
    ensures Reassembles(codec, s, name, file, total)
  {
    hide PartKey, RecordKey, Utoa, Concat, Sum;
    forall k | 0 <= k < total
      ensures PartKey(name, Utoa(k)) in s && s[PartKey(name, Utoa(k))] == t[PartKey(name, Utoa(k))]
    {
      assert SameAt(s, t, PartKey(name, Utoa(k)));
    }
    AllParts(StoredParts(s, name, total), StoredParts(t, name, total));
  }

  /**
   End to end: an acceptable upload of a file that is not empty, begun on any store and interleaved
   in any way with uploads of other names, is never rejected. It is done exactly when it has had
   three steps for each slice; from then on the stored parts put together are the file, with a
   fitting record. Before then status finds the name complete exactly while the first slice is not
   recorded and an earlier upload of the name was complete.
   */
  lemma EndToEnd(codec: Codec, store: Store, clients: seq<Client>, schedule: seq<nat>, u: nat,
                 name: string, file: string, chunk: nat)
    requires codec.Faithful() && AllValid(clients) && DistinctNames(clients) && u < |clients|
    requires chunk > 0 && file != "" && clients[u] == NewClient(name, file, chunk)
    requires Acceptable(clients[u])
    ensures var s, total := Run(codec, store, clients, schedule), ChunkCount(|file|, chunk);
      && !s.clients[u].stage.Failed?
      && (s.clients[u].stage.Done? <==> Turns(schedule, u) >= 3 * total)
      && (s.clients[u].stage.Done? ==> Reassembles(codec, s.store, name, file, total))
      && (!s.clients[u].stage.Done? ==>
            (Complete(codec, s.store, name) <==> Turns(schedule, u) < 3 && Complete(codec, store, name)))
  {
    hide Going, Agree, Reassembles, Complete;
    var c, n := clients[u], Turns(schedule, u);
    CountIsRight(file, chunk);
    Begins(codec, store, name, file, chunk);
    AsIfAlone(codec, store, clients, schedule, u);
    AloneGoes(codec, store, c, n);
    AloneFinishes(codec, store, c, n);
    var s, o := Run(codec, store, clients, schedule), Alone(codec, store, c, n);
    GoingIsValid(codec, o.store, o.client);
    StepCounts(codec, o.store, o.client);
    if o.client.stage.Done? {
      DoneReassembles(codec, o.store, o.client);
      ReassemblesToo(codec, s.store, o.store, name, file, |Chunks(file, chunk)|);
    } else {
      CompleteToo(codec, s.store, o.store, name);
      FirstTurns(c, o.client, n);
      if o.client.idx > 0 {
        NotEarly(codec, o.store, o.client);
      } else {
        RecordUntouched(codec, store, c, n);
        SameRecord(codec, o.store, store, name);
      }
    }
  }

  /** The first slice is being sent during the first three steps. */
  lemma FirstTurns(first: Client, c: Client, n: nat)
    requires first.Valid() && first.idx == 0 && first.stage.Post?
    requires c.Valid() && c.file == first.file && c.chunk == first.chunk && !c.stage.Failed? && !c.stage.Done?
    requires Remaining(c) > 0
    requires Remaining(c) == if n <= Remaining(first) then Remaining(first) - n else 0
    ensures n < 3 <==> c.idx == 0
  {
  }

  lemma SameRecord(codec: Codec, s: Store, t: Store, name: string)
    requires SameAt(s, t, RecordKey(name))
    ensures Complete(codec, s, name) <==> Complete(codec, t, name)
  {
  }

  lemma CompleteToo(codec: Codec, s: Store, t: Store, name: string)
    requires Agree(s, t, name)
    ensures Complete(codec, s, name) <==> Complete(codec, t, name)
  {
  }
}

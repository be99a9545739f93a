/**
 The queue package's running state and its code between two blocking points: Handle's
 transaction up to its channel send, up to its commit, and the pieces of handle that read a
 line, receive a message and write a job. Each method is one step of the system in JobQueue.
 */
module QueueServer {
  import opened GoStrings
  import opened JobFraming
  import opened JobQueue

  class Server {
    var store: map<string, Bucket>
    var txn: Option<Txn>
    var channels: map<string, seq<nat>>
    var sessions: map<nat, Session>
    var crashed: bool
    ghost var sent: map<string, seq<string>>
    ghost var taken: map<string, seq<nat>>
    ghost var acked: map<string, seq<nat>>
    var commits: nat // history, as in the fields of a session

    ghost function Now(): World
      reads this
    {
      World(store, txn, channels, sessions, crashed, sent, taken, acked, commits)
    }

    constructor ()
      ensures Now() == INITIAL
    {
      store, txn, channels, sessions, crashed := map[], None, map[], map[], false;
      sent, taken, acked, commits := map[], map[], map[], 0;
    }

    /** Handle's db.Update up to the channel send. */
    method BeginUpdate(bucketName: string, body: string)
      requires Enabled(Now(), Begin(bucketName, body))
      modifies this
      ensures Now() == Step(old(Now()), Begin(bucketName, body))
    {
      var id := 1;
      if bucketName in store {
        id := store[bucketName].seqno + 1;
      }
      txn := Some(Txn(bucketName, id, body, false));
      if bucketName !in channels {
        channels := channels[bucketName := []];
      }
    }

    /** queue[bucketName] <- Msg{Id: idb}, once the channel has room. */
    method SendMessage()
      requires Enabled(Now(), Send)
      modifies this
      ensures Now() == Step(old(Now()), Send)
    {
      var t := txn.value;
      sent := sent[t.bucket := At(sent, t.bucket) + [t.body]];
      channels := channels[t.bucket := At(channels, t.bucket) + [t.id]];
      txn := Some(t.(sent := true));
    }

    /** The transaction's function has returned nil and bolt commits it. */
    method CommitUpdate()
      requires Enabled(Now(), Commit)
      modifies this
      ensures Now() == Step(old(Now()), Commit)
    {
      var t := txn.value;
      var jobs: map<nat, string> := map[];
      if t.bucket in store {
        jobs := store[t.bucket].jobs;
      }
      store := store[t.bucket := Bucket(t.id, jobs[t.id := t.body])];
      txn := None;
      commits := commits + 1;
    }

    /** Serve accepts a connection and handle greets it. */
    method Accept(w: nat)
      requires Enabled(Now(), Connect(w))
      modifies this
      ensures Now() == Step(old(Now()), Connect(w))
    {
      sessions := sessions[w := Session(Reading, 0, "", None, "", "HELLO hfast.v1\r\n", 0, 0, [], 0)];
    }

    /** What follows the loop of handle. */
    method EndSession(w: nat, x: Session)
      modifies this`sessions
      ensures sessions == old(sessions)[w := Leave(x)]
    {
      if x.state == 2 {
        sessions := sessions[w := x.(phase := GivingBack)];
      } else {
        sessions := sessions[w := x.(phase := Closed)];
      }
    }

    method HandleHangup(w: nat)
      requires Enabled(Now(), Hangup(w))
      modifies this
      ensures Now() == Step(old(Now()), Hangup(w))
    {
      EndSession(w, sessions[w]);
    }

    /** One turn of handle's loop on its local variables; None where tok[1] panics. */
    static method Turn(x: Session, line: string, writes: bool, channelMade: bool) returns (r: Option<Session>)
      ensures r == OnLine(x, line, writes, channelMade)
    {
      hide SplitN, TrimSpace;
      var tok := SplitN(TrimSpace(line), ' ', 2);
      if x.state == 0 {
        if tok[0] == "CHAN" {
          if |tok| < 2 {
            return None;
          }
          if !writes {
            return Some(Leave(x.(channel := tok[1])));
          }
          return Some(x.(channel := tok[1], out := x.out + "READY\r\n", state := 1));
        }
      } else if x.state == 1 {
        if tok[0] == "READY" {
          return Some(x.(phase := if channelMade then Selecting else Stuck));
        }
      } else {
        if tok[0] == "PONG" {
          return Some(if writes then x else Leave(x));
        } else if tok[0] == "OK" {
          return Some(x.(curmsg := None, state := 1, oks := x.oks + 1));
        }
      }
      if writes {
        return Some(Leave(x.(out := x.out + "INVALID\r\n")));
      }
      return Some(Leave(x));
    }

    /** From a line that was read to the next blocking point. */
    method HandleLine(w: nat, line: string, writes: bool)
      requires Enabled(Now(), Line(w, line, writes))
      modifies this
      ensures Now() == Step(old(Now()), Line(w, line, writes))
    {
      hide OnLine;
      var x := sessions[w];
      var next := Turn(x, line, writes, x.channel in channels);
      if next.None? {
        crashed := true;
        return;
      }
      if next.value.oks > x.oks && x.curmsg.Some? {
        acked := acked[x.channel := At(acked, x.channel) + [x.curmsg.value]];
      }
      sessions := sessions[w := next.value];
    }

    /** The select of handle receives: requeue[channel] is never made, so the message is queue's. */
    method HandleReceive(w: nat)
      requires Enabled(Now(), Take(w))
      modifies this
      ensures Now() == Step(old(Now()), Take(w))
    {
      var x := sessions[w];
      var q := channels[x.channel];
      var msg := q[0];
      channels := channels[x.channel := q[1..]];
      taken := taken[x.channel := At(taken, x.channel) + [msg]];
      sessions := sessions[w := x.(phase := Handling, curmsg := Some(msg), state := 2, takes := x.takes + 1)];
    }

    /** db.View: v is left referring to the record's bytes. */
    method HandleView(w: nat, ok: bool)
      requires Enabled(Now(), View(w, ok))
      modifies this
      ensures Now() == Step(old(Now()), View(w, ok))
    {
      var x := sessions[w];
      var id := x.curmsg.value;
      if !ok {
        EndSession(w, x);
        return;
      }
      if x.channel !in store {
        crashed := true;
        return;
      }
      var v := "";
      if id in store[x.channel].jobs {
        v := store[x.channel].jobs[id];
      }
      sessions := sessions[w := x.(phase := Writing, view := v, viewedAt := commits)];
    }

    /** The JOB frame, from the bytes v shows by then, and the deadline. */
    method HandleJob(w: nat, slice: Option<string>, fault: Fault)
      requires Enabled(Now(), Write(w, slice, fault))
      modifies this
      ensures Now() == Step(old(Now()), Write(w, slice, fault))
    {
      hide Frame, Header, Shows;
      var x := sessions[w];
      var id := x.curmsg.value;
      if fault == HeaderFails {
        EndSession(w, x);
        return;
      }
      if slice.None? {
        crashed := true;
        return;
      }
      var v := slice.value;
      if fault == BodyFails {
        EndSession(w, x.(out := x.out + Header(id, |v|)));
        return;
      }
      x := x.(out := x.out + Frame(Job(id, v)), delivered := x.delivered + [Job(id, v)]);
      if fault == DeadlineFails {
        EndSession(w, x);
        return;
      }
      sessions := sessions[w := x.(phase := Reading)];
    }
  }
}

/** The reconciler as an object over the local database. Its methods take the machine's steps, the
    machine's invariant is its class invariant, and so its whole life satisfies what every schedule does. */
module InboundSync {
  import opened Terms
  import opened Models
  import opened Reconciler

  class LocalDatabase {
    var messages: map<string, Message>
    var channels: map<string, Channel>

    function Contents(): Store
      reads this
    {
      Store(messages, channels)
    }

    method CreateMessage(m: Message)
      modifies this`messages
      ensures Contents() == WithMessage(old(Contents()), m)
    {
      messages := messages[m.id := m];
    }

    method FindChannel(id: string) returns (r: Option<Channel>)
      ensures r == if id in Contents().channels then Some(Contents().channels[id]) else None
    {
      r := if id in channels then Some(channels[id]) else None;
    }

    method UpdateChannel(id: string, now: int)
      modifies this`channels
      ensures Contents() == WithBump(old(Contents()), id, now)
    {
      if id in channels {
        var c := channels[id];
        var unread := if c.unreadCount.Some? then c.unreadCount.value else 0;
        channels := channels[id := c.(lastMessageAt := Some(now), unreadCount := Some(unread + 1))];
      }
    }
  }

  class InboundSyncReconciler {
    const db: LocalDatabase
    const decrypt: Decryptor
    var queue: seq<Payload>
    var isProcessing: bool
    var batchTimer: bool
    var flushes: seq<Flush>
    ghost const init: Store
    ghost var arrived: seq<Payload>
    ghost var done: seq<Done>
    ghost var reported: nat

    ghost function Machine(): State
      reads this, db
    {
      State(queue, isProcessing, batchTimer, flushes, db.Contents(), arrived, done, reported)
    }

    /** One flush at most, a wake-up for every queue, every payload in one place and in order, and the
        store of one-at-a-time processing from the store this object was given. */
    ghost predicate Valid()
      reads this, db
    {
      Inv(decrypt, init, Machine())
    }

    constructor (db: LocalDatabase, decrypt: Decryptor)
      ensures this.db == db && this.decrypt == decrypt && init == db.Contents()
      ensures Valid() && Machine() == Start(db.Contents())
    {
      this.db, this.decrypt := db, decrypt;
      queue, isProcessing, batchTimer, flushes := [], false, false, [];
      init, arrived, done, reported := db.Contents(), [], [], 0;
    }

    method ScheduleBatch()
      modifies this`batchTimer
      ensures Machine() == Scheduled(old(Machine()))
    {
      if !(batchTimer || isProcessing) {
        batchTimer := true;
      }
    }

    method Enqueue(p: Payload)
      requires Valid()
      modifies this
      ensures Valid() && Machine() == Step(decrypt, old(Machine()), Action.Enqueue(p))
    {
      StepKeepsInv(decrypt, init, Machine(), Action.Enqueue(p));
      queue := queue + [p];
      arrived := arrived + [p];
      ScheduleBatch();
    }

    /** The timer callback; the host calls it only while a timer is pending. */
    method TimerCallback(t: Tick)
      requires Valid() && batchTimer
      modifies this, db
      ensures Valid() && Machine() == Step(decrypt, old(Machine()), TimerFires(t))
    {
      StepKeepsInv(decrypt, init, Machine(), TimerFires(t));
      batchTimer := false;
      var resolved := FlushQueue(t);
    }

    /** The call up to its first await. With nothing to do it has already resolved, to zero. The timer
        callback calls it with its timer cleared, before anything else can run. */
    method FlushQueue(t: Tick) returns (resolved: Option<nat>)
      modifies this, db
      ensures Machine() == Step(decrypt, old(Machine()), FlushNow(t))
      ensures old(Valid()) ==> Valid()
      ensures resolved == if old(queue == [] || isProcessing) then Some(0) else None
    {
      ghost var before := Machine();
      if queue == [] || isProcessing {
        return Some(0);
      }
      isProcessing := true;
      var batch := queue;
      queue := [];
      flushes := flushes + [Flush(batch, 0, Created, t)];
      CreateRecord(batch[0], t);
      if Inv(decrypt, init, before) {
        StepKeepsInv(decrypt, init, before, FlushNow(t));
      }
      resolved := None;
    }

    method CreateRecord(p: Payload, t: Tick)
      modifies db
      ensures db.Contents() == WithMessage(old(db.Contents()), Record(decrypt, p, t))
      ensures exists m: Message ::
                Shows(decrypt, p, t, m) && db.messages == old(db.messages)[m.id := m] && db.channels == old(db.channels)
    {
      var plain := decrypt(p.sessionPickle, p.pickleKeyHex, p.messageType, p.ciphertext);
      var text := if plain.Some? then plain.value else "[Decryption Failed]";
      var id := if p.messageId == "" then t.defaultId else p.messageId;
      var createdAt := if p.timestamp.Some? && p.timestamp.value != 0 then p.timestamp.value else t.now;
      var m := Message(id, p.channelId, p.senderId, p.messageId, p.sequenceNum, Some(text),
                       "delivered", "text", Some(createdAt));
      db.CreateMessage(m);
      assert Shows(decrypt, p, t, m);
    }

    method Advance(k: nat, t: Tick)
      requires k < |flushes|
      modifies this, db
      ensures Machine() == NextItem(decrypt, old(Machine()), k, t)
    {
      var f := flushes[k];
      if f.at + 1 < |f.batch| {
        flushes := flushes[k := Flush(f.batch, f.at + 1, Created, t)];
        CreateRecord(f.batch[f.at + 1], t);
      } else {
        flushes := flushes[k := f.(phase := Finishing)];
      }
    }

    /** From one await to the next. */
    method Continue(k: nat, t: Tick) returns (resolved: Option<nat>)
      requires k < |flushes| && flushes[k].at < |flushes[k].batch|
      modifies this, db
      ensures Machine() == Resumed(decrypt, old(Machine()), k, t)
      ensures resolved == var f := old(flushes)[k]; if f.phase.Finishing? then Some(|f.batch|) else None
    {
      resolved := None;
      var f := flushes[k];
      var p := f.batch[f.at];
      match f.phase {
        case Created =>
          var channel := db.FindChannel(p.channelId);
          flushes := flushes[k := f.(phase := Found(channel.Some?))];
        case Found(present) =>
          done := done + [Done(p, f.made, t.now)];
          if present {
            db.UpdateChannel(p.channelId, t.now);
            flushes := flushes[k := f.(phase := Updated)];
          } else {
            Advance(k, t);
          }
        case Updated =>
          Advance(k, t);
        case Finishing =>
          resolved, reported := Some(|f.batch|), reported + |f.batch|;
          isProcessing := false;
          flushes := flushes[..k] + flushes[k + 1..];
          if queue != [] {
            ScheduleBatch();
          }
      }
    }

    /** A suspended flush runs on to its next await, or resolves to the number of its payloads. */
    method Resume(k: nat, t: Tick) returns (resolved: Option<nat>)
      requires Valid() && k < |flushes|
      modifies this, db
      ensures Valid() && Machine() == Step(decrypt, old(Machine()), Action.Resume(k, t))
      ensures resolved.Some? <==> flushes == []
      ensures resolved.Some? ==> reported == old(reported) + resolved.value == |done|
    {
      StepKeepsInv(decrypt, init, Machine(), Action.Resume(k, t));
      ResolvesWhenFinished(decrypt, Machine(), t);
      assert k == 0;
      resolved := Continue(0, t);
    }

    /** One turn of the host: an arrival, a pending timer, a manual flush or a resumption. */
    method Turn(a: Action)
      requires Valid()
      modifies this, db
      ensures Valid() && Machine() == Step(decrypt, old(Machine()), a)
    {
      match a {
        case Enqueue(p) => Enqueue(p);
        case TimerFires(t) => if batchTimer { TimerCallback(t); }
        case FlushNow(t) => var resolved := FlushQueue(t);
        case Resume(k, t) => if k < |flushes| { var resolved := Resume(k, t); }
      }
    }

    /** The object's life under any schedule is the machine's: at every point one flush at most runs,
        nothing queued lacks a wake-up, and every payload is processed, in flight or queued, in order. */
    method Live(acts: seq<Action>)
      requires Valid()
      modifies this, db
      ensures Valid() && Machine() == Exec(decrypt, old(Machine()), acts)
      ensures |flushes| <= 1 && (queue != [] ==> batchTimer || |flushes| == 1)
      ensures arrived == Payloads(done) + InFlight(Machine()) + queue
      ensures flushes == [] ==> db.Contents() == Serial(decrypt, init, done) && reported == |done|
    {
      for i := 0 to |acts|
        invariant Valid() && Machine() == Exec(decrypt, old(Machine()), acts[..i])
      {
        ExecOneMore(decrypt, old(Machine()), acts[..i], acts[i]);
        assert acts[..i + 1] == acts[..i] + [acts[i]];
        Turn(acts[i]);
      }
      assert acts[..|acts|] == acts;
    }

    /** Left to its own wake-ups, with no further arrival, the object processes all that has arrived. */
    method Settle(t: Tick)
      requires Valid()
      modifies this, db
      ensures Valid() && queue == [] && flushes == [] && arrived == old(arrived)
      ensures Payloads(done) == arrived && reported == |arrived|
      ensures db.Contents() == Serial(decrypt, init, done)
    {
      while queue != [] || flushes != []
        invariant Valid() && arrived == old(arrived)
        decreases |queue|, Work(Machine())
      {
        if flushes != [] {
          ResumeShrinksWork(decrypt, Machine(), t);
          var resolved := Resume(0, t);
        } else {
          TimerCallback(t);
        }
      }
      assert Payloads(done) + [] + [] == Payloads(done);
    }
  }
}

/** The inbound batch reconciler: a queue, a timer and a busy flag, run cooperatively with a switch
    possible at every await. */
module Reconciler {
  import opened Terms
  import opened Models

  datatype Payload = Payload(
    channelId: string, senderId: string, messageId: string, sequenceNum: int, ciphertext: string, messageType: int,
    sessionPickle: string, pickleKeyHex: string, timestamp: Option<int>)

  datatype Store = Store(messages: map<string, Message>, channels: map<string, Channel>)

  /** The ratchet engine: pickle, pickle key, message type and ciphertext to text; None when it throws. */
  type Decryptor = (string, string, int, string) -> Option<string>

  /** What a step draws from outside: the clock and a random record id. */
  datatype Tick = Tick(now: int, defaultId: string)

  // ---- one payload, processed alone ----------------------------------------

  function Text(decrypt: Decryptor, p: Payload): string {
    match decrypt(p.sessionPickle, p.pickleKeyHex, p.messageType, p.ciphertext)
    case Some(text) => text
    case None => "[Decryption Failed]"
  }

  function RecordId(p: Payload, t: Tick): string {
    if p.messageId == "" then t.defaultId else p.messageId
  }

  function Record(decrypt: Decryptor, p: Payload, t: Tick): Message {
    Message(RecordId(p, t), p.channelId, p.senderId, p.messageId, p.sequenceNum, Some(Text(decrypt, p)),
            "delivered", "text",
            Some(if p.timestamp.Some? && p.timestamp.value != 0 then p.timestamp.value else t.now))
  }

  function Bumped(c: Channel, now: int): Channel {
    c.(lastMessageAt := Some(now), unreadCount := Some((if c.unreadCount.Some? then c.unreadCount.value else 0) + 1))
  }

  function WithMessage(store: Store, m: Message): Store {
    store.(messages := store.messages[m.id := m])
  }

  function WithBump(store: Store, channelId: string, now: int): Store {
    if channelId in store.channels
    then store.(channels := store.channels[channelId := Bumped(store.channels[channelId], now)])
    else store
  }

  /** A processed payload with the readings used when its record was made and its channel bumped. */
  datatype Done = Done(payload: Payload, made: Tick, bumpedAt: int)

  function ProcessOne(decrypt: Decryptor, store: Store, d: Done): Store {
    WithBump(WithMessage(store, Record(decrypt, d.payload, d.made)), d.payload.channelId, d.bumpedAt)
  }

  /** The store after processing payloads one at a time. */
  function Serial(decrypt: Decryptor, store: Store, ds: seq<Done>): Store {
    if ds == [] then store
    else ProcessOne(decrypt, Serial(decrypt, store, ds[..|ds| - 1]), ds[|ds| - 1])
  }

  // ---- the machine ---------------------------------------------------------

  /** Where a suspended flush will resume: after creating the record, after looking up the channel,
      after bumping it, or after the whole batch. */
  datatype Phase = Created | Found(present: bool) | Updated | Finishing

  /** A flush in flight; `made` holds the readings of the record under way. */
  datatype Flush = Flush(batch: seq<Payload>, at: nat, phase: Phase, made: Tick)

  /** The reconciler, its store, and the history: what arrived, what is processed, and the sum of the
      numbers that finished flushes have returned. */
  datatype State = State(
    queue: seq<Payload>, isProcessing: bool, batchTimer: bool, flushes: seq<Flush>, store: Store,
    arrived: seq<Payload>, done: seq<Done>, reported: nat)

  datatype Action =
    | Enqueue(payload: Payload)
    | TimerFires(tick: Tick)
    | FlushNow(tick: Tick)
    | Resume(flush: nat, tick: Tick)

  function Start(store: Store): State {
    State([], false, false, [], store, [], [], 0)
  }

  function Scheduled(s: State): State {
    if s.batchTimer || s.isProcessing then s else s.(batchTimer := true)
  }

  /** A call of flushQueue up to its first suspension. */
  function FlushCalled(decrypt: Decryptor, s: State, t: Tick): State {
    if s.queue == [] || s.isProcessing then s
    else s.(isProcessing := true, queue := [],
            flushes := s.flushes + [Flush(s.queue, 0, Created, t)],
            store := WithMessage(s.store, Record(decrypt, s.queue[0], t)))
  }

  /** The loop moves on to its next item, or leaves. */
  function NextItem(decrypt: Decryptor, s: State, k: nat, t: Tick): State
    requires k < |s.flushes|
  {
    var f := s.flushes[k];
    if f.at + 1 < |f.batch| then
      s.(flushes := s.flushes[k := Flush(f.batch, f.at + 1, Created, t)],
         store := WithMessage(s.store, Record(decrypt, f.batch[f.at + 1], t)))
    else s.(flushes := s.flushes[k := f.(phase := Finishing)])
  }

  /** The return of the batch length, and the `finally` block. */
  function Finished(s: State, k: nat): State
    requires k < |s.flushes|
  {
    var idle := s.(isProcessing := false, flushes := s.flushes[..k] + s.flushes[k + 1..],
                   reported := s.reported + |s.flushes[k].batch|);
    if s.queue != [] then Scheduled(idle) else idle
  }

  function Resumed(decrypt: Decryptor, s: State, k: nat, t: Tick): State
    requires k < |s.flushes| && s.flushes[k].at < |s.flushes[k].batch|
  {
    var f := s.flushes[k];
    var p := f.batch[f.at];
    match f.phase
    case Created => s.(flushes := s.flushes[k := f.(phase := Found(p.channelId in s.store.channels))])
    case Found(present) =>
      var noted := s.(done := s.done + [Done(p, f.made, t.now)]);
      if present then
        noted.(store := WithBump(s.store, p.channelId, t.now), flushes := s.flushes[k := f.(phase := Updated)])
      else NextItem(decrypt, noted, k, t)
    case Updated => NextItem(decrypt, s, k, t)
    case Finishing => Finished(s, k)
  }

  function Step(decrypt: Decryptor, s: State, a: Action): State {
    match a
    case Enqueue(p) => Scheduled(s.(queue := s.queue + [p], arrived := s.arrived + [p]))
    case TimerFires(t) => if s.batchTimer then FlushCalled(decrypt, s.(batchTimer := false), t) else s
    case FlushNow(t) => FlushCalled(decrypt, s, t)
    case Resume(k, t) =>
      if k < |s.flushes| && s.flushes[k].at < |s.flushes[k].batch| then Resumed(decrypt, s, k, t) else s
  }

  function Exec(decrypt: Decryptor, s: State, acts: seq<Action>): State
    decreases |acts|
  {
    if acts == [] then s else Exec(decrypt, Step(decrypt, s, acts[0]), acts[1..])
  }

  lemma {:induction false} ExecOneMore(decrypt: Decryptor, s: State, acts: seq<Action>, a: Action)
    ensures Exec(decrypt, s, acts + [a]) == Step(decrypt, Exec(decrypt, s, acts), a)
    decreases |acts|
  {
    if acts == [] {
      assert (acts + [a])[1..] == [];
    } else {
      assert (acts + [a])[1..] == acts[1..] + [a];
      ExecOneMore(decrypt, Step(decrypt, s, acts[0]), acts[1..], a);
    }
  }

  // ---- what every schedule keeps -------------------------------------------

  function Payloads(ds: seq<Done>): (r: seq<Payload>)
    ensures |r| == |ds|
    ensures forall i | 0 <= i < |ds| :: r[i] == ds[i].payload
  {
    seq(|ds|, i requires 0 <= i < |ds| => ds[i].payload)
  }

  /** The payloads a flush still owes. */
  function Owed(f: Flush): seq<Payload> {
    if f.at >= |f.batch| then []
    else match f.phase
      case Created => f.batch[f.at..]
      case Found(_) => f.batch[f.at..]
      case Updated => f.batch[f.at + 1..]
      case Finishing => []
  }

  function InFlight(s: State): seq<Payload> {
    if s.flushes == [] then [] else Owed(s.flushes[0])
  }

  /** The busy flag is set exactly while one flush runs, and nothing waits without a wake-up. */
  ghost predicate Awake(s: State) {
    && |s.flushes| <= 1 && (s.isProcessing <==> |s.flushes| == 1)
    && (s.queue != [] ==> s.batchTimer || s.isProcessing)
    && (forall k | 0 <= k < |s.flushes| :: s.flushes[k].at < |s.flushes[k].batch|)
  }

  /** Every payload is processed, in flight or queued, in arrival order. */
  ghost predicate InOrder(s: State) {
    s.arrived == Payloads(s.done) + InFlight(s) + s.queue
  }

  /** A record is made whose payload is not yet processed. */
  predicate UnderWay(s: State) {
    && s.flushes != [] && s.flushes[0].at < |s.flushes[0].batch|
    && (s.flushes[0].phase.Created? || s.flushes[0].phase.Found?)
  }

  /** The store is the serial one, plus the record of the item under way. */
  ghost predicate Serialised(decrypt: Decryptor, init: Store, s: State) {
    var base := Serial(decrypt, init, s.done);
    if UnderWay(s) then
      var f := s.flushes[0];
      && s.store == WithMessage(base, Record(decrypt, f.batch[f.at], f.made))
      && (f.phase.Found? ==> f.phase.present == (f.batch[f.at].channelId in base.channels))
    else s.store == base
  }

  /** Finished flushes have returned the number of payloads they processed. */
  ghost predicate Tallied(s: State) {
    s.reported + (if s.flushes == [] then 0 else |s.flushes[0].batch| - |InFlight(s)|) == |s.done|
  }

  ghost predicate Inv(decrypt: Decryptor, init: Store, s: State) {
    Awake(s) && InOrder(s) && Serialised(decrypt, init, s) && Tallied(s)
  }

  lemma PayloadsOneMore(ds: seq<Done>, d: Done)
    ensures Payloads(ds + [d]) == Payloads(ds) + [d.payload]
  {
  }

  lemma SerialOneMore(decrypt: Decryptor, init: Store, ds: seq<Done>, d: Done)
    ensures Serial(decrypt, init, ds + [d]) == ProcessOne(decrypt, Serial(decrypt, init, ds), d)
  {
    assert (ds + [d])[..|ds|] == ds;
  }

  lemma FlushCallKeepsInv(decrypt: Decryptor, init: Store, s: State, t: Tick)
    requires |s.flushes| <= 1 && (s.isProcessing <==> |s.flushes| == 1)
    requires forall k | 0 <= k < |s.flushes| :: s.flushes[k].at < |s.flushes[k].batch|
    requires InOrder(s) && Serialised(decrypt, init, s) && Tallied(s)
    ensures Inv(decrypt, init, FlushCalled(decrypt, s, t))
  {
    if s.queue != [] && !s.isProcessing {
      var r := FlushCalled(decrypt, s, t);
      assert InFlight(r) == s.queue;
    }
  }

  lemma {:induction false} NextItemKeepsInv(decrypt: Decryptor, init: Store, s: State, t: Tick)
    requires Awake(s) && |s.flushes| == 1
    requires s.store == Serial(decrypt, init, s.done) && s.reported + s.flushes[0].at + 1 == |s.done|
    requires s.arrived == Payloads(s.done) + s.flushes[0].batch[s.flushes[0].at + 1..] + s.queue
    ensures Inv(decrypt, init, NextItem(decrypt, s, 0, t))
  {
    var r := NextItem(decrypt, s, 0, t);
    assert InFlight(r) == s.flushes[0].batch[s.flushes[0].at + 1..];
  }

  /** Noting an item done moves it from the front of what is owed to the end of what is processed. */
  lemma NotedKeepsOrder(s: State, d: Done)
    requires |s.flushes| == 1 && InOrder(s)
    requires var f := s.flushes[0]; f.at < |f.batch| && f.phase.Found? && d.payload == f.batch[f.at]
    ensures s.arrived == Payloads(s.done + [d]) + s.flushes[0].batch[s.flushes[0].at + 1..] + s.queue
  {
    var f := s.flushes[0];
    PayloadsOneMore(s.done, d);
    assert f.batch[f.at..] == [d.payload] + f.batch[f.at + 1..];
    var rest := f.batch[f.at + 1..];
    assert Payloads(s.done) + ([d.payload] + rest) == Payloads(s.done) + [d.payload] + rest;
  }

  lemma FoundKeepsInv(decrypt: Decryptor, init: Store, s: State, t: Tick)
    requires Inv(decrypt, init, s) && |s.flushes| == 1 && s.flushes[0].phase.Found?
    ensures Inv(decrypt, init, Resumed(decrypt, s, 0, t))
  {
    var f := s.flushes[0];
    var d := Done(f.batch[f.at], f.made, t.now);
    var noted := s.(done := s.done + [d]);
    NotedKeepsOrder(s, d);
    SerialOneMore(decrypt, init, s.done, d);
    assert WithBump(s.store, d.payload.channelId, t.now) == Serial(decrypt, init, noted.done);
    if f.phase.present {
      assert InOrder(Resumed(decrypt, s, 0, t));
    } else {
      NextItemKeepsInv(decrypt, init, noted, t);
    }
  }

  lemma ResumeKeepsInv(decrypt: Decryptor, init: Store, s: State, t: Tick)
    requires Inv(decrypt, init, s) && |s.flushes| == 1
    ensures Inv(decrypt, init, Resumed(decrypt, s, 0, t))
  {
    match s.flushes[0].phase {
      case Created =>
      case Found(_) => FoundKeepsInv(decrypt, init, s, t);
      case Updated => NextItemKeepsInv(decrypt, init, s, t);
      case Finishing =>
    }
  }

  /** A flush is gone exactly after its last resumption, with its batch length reported. */
  lemma ResolvesWhenFinished(decrypt: Decryptor, s: State, t: Tick)
    requires Awake(s) && |s.flushes| == 1
    ensures var (f, r) := (s.flushes[0], Resumed(decrypt, s, 0, t));
            && (f.phase.Finishing? <==> r.flushes == [])
            && r.reported == s.reported + if f.phase.Finishing? then |f.batch| else 0
  {
  }

  lemma EnqueueKeepsInv(decrypt: Decryptor, init: Store, s: State, p: Payload)
    requires Inv(decrypt, init, s)
    ensures Inv(decrypt, init, Step(decrypt, s, Enqueue(p)))
  {
    assert Payloads(s.done) + InFlight(s) + (s.queue + [p]) == Payloads(s.done) + InFlight(s) + s.queue + [p];
  }

  lemma {:induction false} TimerKeepsInv(decrypt: Decryptor, init: Store, s: State, t: Tick)
    requires Inv(decrypt, init, s)
    ensures Inv(decrypt, init, Step(decrypt, s, TimerFires(t)))
  {
    if s.batchTimer {
      FlushCallKeepsInv(decrypt, init, s.(batchTimer := false), t);
    }
  }

  lemma {:induction false} ResumeStepKeepsInv(decrypt: Decryptor, init: Store, s: State, k: nat, t: Tick)
    requires Inv(decrypt, init, s)
    ensures Inv(decrypt, init, Step(decrypt, s, Resume(k, t)))
  {
    if k < |s.flushes| {
      assert k == 0;
      ResumeKeepsInv(decrypt, init, s, t);
    }
  }

  lemma {:induction false} StepKeepsInv(decrypt: Decryptor, init: Store, s: State, a: Action)
    requires Inv(decrypt, init, s)
    ensures Inv(decrypt, init, Step(decrypt, s, a))
  {
    match a {
      case Enqueue(p) => EnqueueKeepsInv(decrypt, init, s, p);
      case TimerFires(t) => TimerKeepsInv(decrypt, init, s, t);
      case FlushNow(t) => FlushCallKeepsInv(decrypt, init, s, t);
      case Resume(k, t) => ResumeStepKeepsInv(decrypt, init, s, k, t);
    }
  }

  /** A flush call starts exactly when something is queued and no flush runs. It then takes the whole
      queue; otherwise it changes nothing. */
  lemma {:induction false} FlushTakesAll(decrypt: Decryptor, s: State, t: Tick)
    ensures var r := Step(decrypt, s, FlushNow(t));
            if s.queue == [] || s.isProcessing then r == s
            else
              && r.queue == [] && r.isProcessing && |r.flushes| == |s.flushes| + 1
              && r.flushes[..|s.flushes|] == s.flushes && r.flushes[|s.flushes|].batch == s.queue
              && r.done == s.done && r.batchTimer == s.batchTimer && r.store.channels == s.store.channels
  {
  }

  /** When a timer is set: by an arrival with neither timer nor flush, and by a flush that ends over a
      queue. It is cleared by firing, and by nothing else. */
  lemma {:induction false} TimerAfter(decrypt: Decryptor, init: Store, s: State, a: Action)
    requires Inv(decrypt, init, s)
    ensures var r := Step(decrypt, s, a);
            r.batchTimer ==
            match a
            case Enqueue(_) => s.batchTimer || s.flushes == []
            case TimerFires(_) => false
            case FlushNow(_) => s.batchTimer
            case Resume(k, _) => s.batchTimer || (s.flushes != [] && r.flushes == [] && k == 0 && s.queue != [])
  {
  }

  lemma {:induction false} ExecKeepsInv(decrypt: Decryptor, init: Store, s: State, acts: seq<Action>)
    requires Inv(decrypt, init, s)
    ensures Inv(decrypt, init, Exec(decrypt, s, acts))
    decreases |acts|
  {
    if acts == [] {
    } else {
      StepKeepsInv(decrypt, init, s, acts[0]);
      ExecKeepsInv(decrypt, init, Step(decrypt, s, acts[0]), acts[1..]);
    }
  }

  /** Under every schedule of arrivals, timer firings, manual flushes and resumptions: at most one
      flush runs, nothing queued lacks a wake-up, every payload is in exactly one of processed, in
      flight and queued, in arrival order, the store is that of one-at-a-time processing, and the
      numbers the flushes returned add up to the payloads processed. */
  lemma EverySchedule(decrypt: Decryptor, init: Store, acts: seq<Action>)
    ensures var s := Exec(decrypt, Start(init), acts);
            && |s.flushes| <= 1 && (s.isProcessing <==> |s.flushes| == 1)
            && (s.queue != [] ==> s.batchTimer || |s.flushes| == 1)
            && s.arrived == Payloads(s.done) + InFlight(s) + s.queue
            && (s.flushes == [] ==> s.store == Serial(decrypt, init, s.done) && s.reported == |s.done|)
            && Inv(decrypt, init, s)
  {
    ExecKeepsInv(decrypt, init, Start(init), acts);
  }

  // ---- what one-at-a-time processing means ---------------------------------

  function CountFor(ds: seq<Done>, channelId: string): nat {
    if ds == [] then 0
    else CountFor(ds[..|ds| - 1], channelId) + (if ds[|ds| - 1].payload.channelId == channelId then 1 else 0)
  }

  function Unread(c: Channel): int {
    if c.unreadCount.Some? then c.unreadCount.value else 0
  }

  /** A channel's unread count grows by its processed payloads, and no channel comes or goes. */
  lemma {:induction false} UnreadCountsPayloads(decrypt: Decryptor, init: Store, ds: seq<Done>, channelId: string)
    ensures var s := Serial(decrypt, init, ds);
            && s.channels.Keys == init.channels.Keys
            && (channelId in init.channels ==>
                  && Unread(s.channels[channelId]) == Unread(init.channels[channelId]) + CountFor(ds, channelId)
                  && s.channels[channelId].name == init.channels[channelId].name)
  {
    if ds == [] {
    } else {
      UnreadCountsPayloads(decrypt, init, ds[..|ds| - 1], channelId);
    }
  }

  /** In every reachable state, even inside a flush, a channel's unread count is its initial one plus
      its processed payloads. */
  lemma UnreadInEverySchedule(decrypt: Decryptor, init: Store, acts: seq<Action>, channelId: string)
    ensures var s := Exec(decrypt, Start(init), acts);
            && s.store.channels.Keys == init.channels.Keys
            && (channelId in init.channels ==>
                  Unread(s.store.channels[channelId]) == Unread(init.channels[channelId]) + CountFor(s.done, channelId))
  {
    EverySchedule(decrypt, init, acts);
    UnreadCountsPayloads(decrypt, init, Exec(decrypt, Start(init), acts).done, channelId);
  }

  /** The position of the last payload processed under a record id. */
  function LastFor(ds: seq<Done>, id: string): (r: Option<nat>)
    ensures r.Some? ==> r.value < |ds| && RecordId(ds[r.value].payload, ds[r.value].made) == id
    ensures forall j | (if r.Some? then r.value + 1 else 0) <= j < |ds| :: RecordId(ds[j].payload, ds[j].made) != id
  {
    if ds == [] then None
    else if RecordId(ds[|ds| - 1].payload, ds[|ds| - 1].made) == id then Some(|ds| - 1)
    else LastFor(ds[..|ds| - 1], id)
  }

  /** The record under an id is that of the last of these payloads with the id, or as it was before. */
  ghost predicate LastWrite(decrypt: Decryptor, init: Store, ds: seq<Done>, id: string, s: Store) {
    match LastFor(ds, id)
    case Some(i) => id in s.messages && s.messages[id] == Record(decrypt, ds[i].payload, ds[i].made)
    case None => if id in init.messages then id in s.messages && s.messages[id] == init.messages[id]
                 else id !in s.messages
  }

  lemma ProcessOneWrites(decrypt: Decryptor, store: Store, d: Done)
    ensures ProcessOne(decrypt, store, d).messages ==
            store.messages[RecordId(d.payload, d.made) := Record(decrypt, d.payload, d.made)]
  {
  }

  /** A record is the one of the last payload processed under its id, or untouched if there is none. */
  lemma {:induction false} LastWriteWins(decrypt: Decryptor, init: Store, ds: seq<Done>, id: string)
    ensures LastWrite(decrypt, init, ds, id, Serial(decrypt, init, ds))
  {
    if ds == [] {
    } else {
      var (prefix, d) := (ds[..|ds| - 1], ds[|ds| - 1]);
      LastWriteWins(decrypt, init, prefix, id);
      ProcessOneWrites(decrypt, Serial(decrypt, init, prefix), d);
    }
  }

  /** The payloads whose records are made: those processed, and the one under way. */
  function Recorded(s: State): seq<Done> {
    if UnderWay(s) then
      var f := s.flushes[0];
      s.done + [Done(f.batch[f.at], f.made, f.made.now)]
    else s.done
  }

  /** In every reachable state, even inside a flush, a message record is that of the last payload
      recorded under its id. */
  lemma {:induction false} LastWriteInEverySchedule(decrypt: Decryptor, init: Store, acts: seq<Action>, id: string)
    ensures var s := Exec(decrypt, Start(init), acts);
            LastWrite(decrypt, init, Recorded(s), id, s.store)
  {
    EverySchedule(decrypt, init, acts);
    var s := Exec(decrypt, Start(init), acts);
    LastWriteWins(decrypt, init, Recorded(s), id);
    if UnderWay(s) {
      var d := Recorded(s)[|s.done|];
      SerialOneMore(decrypt, init, s.done, d);
      ProcessOneWrites(decrypt, Serial(decrypt, init, s.done), d);
      assert Serial(decrypt, init, Recorded(s)).messages == s.store.messages;
    }
  }

  /** The record of a payload, field by field: the decrypted text or the placeholder, the payload's
      channel, sender, id and number, and its time, or the clock's when it has none or zero. */
  ghost predicate Shows(decrypt: Decryptor, p: Payload, t: Tick, m: Message) {
    && m.text == Some(match decrypt(p.sessionPickle, p.pickleKeyHex, p.messageType, p.ciphertext)
                      case Some(text) => text
                      case None => "[Decryption Failed]")
    && m.channelId == p.channelId && m.senderId == p.senderId
    && m.clientMsgId == p.messageId && m.sequenceNum == p.sequenceNum
    && m.id == (if p.messageId == "" then t.defaultId else p.messageId)
    && m.status == "delivered" && m.messageType == "text"
    && m.createdAt == Some(match p.timestamp
                           case None => t.now
                           case Some(stamp) => if stamp == 0 then t.now else stamp)
  }

  /** In every reachable state, the last payload recorded under an id is in the store under that id,
      with all its fields. */
  lemma {:induction false} RecordsShowPayloads(decrypt: Decryptor, init: Store, acts: seq<Action>, i: nat)
    requires var ds := Recorded(Exec(decrypt, Start(init), acts));
             && i < |ds|
             && forall j | i < j < |ds| :: RecordId(ds[j].payload, ds[j].made) != RecordId(ds[i].payload, ds[i].made)
    ensures var s := Exec(decrypt, Start(init), acts);
            var (p, t) := (Recorded(s)[i].payload, Recorded(s)[i].made);
            var id := if p.messageId == "" then t.defaultId else p.messageId;
            id in s.store.messages && Shows(decrypt, p, t, s.store.messages[id])
  {
    var ds := Recorded(Exec(decrypt, Start(init), acts));
    LastWriteInEverySchedule(decrypt, init, acts, RecordId(ds[i].payload, ds[i].made));
  }

  /** The position of the last payload processed for a channel. */
  function LastIn(ds: seq<Done>, channelId: string): (r: Option<nat>)
    ensures r.Some? ==> r.value < |ds| && ds[r.value].payload.channelId == channelId
    ensures forall j | (if r.Some? then r.value + 1 else 0) <= j < |ds| :: ds[j].payload.channelId != channelId
  {
    if ds == [] then None
    else if ds[|ds| - 1].payload.channelId == channelId then Some(|ds| - 1)
    else LastIn(ds[..|ds| - 1], channelId)
  }

  /** A channel's last activity is when its last processed payload was bumped, or as it was before. */
  ghost predicate LastBump(init: Store, ds: seq<Done>, channelId: string, s: Store) {
    channelId in init.channels ==>
      && channelId in s.channels && s.channels[channelId].name == init.channels[channelId].name
      && s.channels[channelId].lastMessageAt ==
         match LastIn(ds, channelId)
         case Some(i) => Some(ds[i].bumpedAt)
         case None => init.channels[channelId].lastMessageAt
  }

  lemma {:induction false} SerialLastBump(decrypt: Decryptor, init: Store, ds: seq<Done>, channelId: string)
    ensures LastBump(init, ds, channelId, Serial(decrypt, init, ds))
  {
    if ds == [] {
    } else {
      SerialLastBump(decrypt, init, ds[..|ds| - 1], channelId);
    }
  }

  lemma {:induction false} LastActivityInEverySchedule(
      decrypt: Decryptor, init: Store, acts: seq<Action>, channelId: string)
    ensures var s := Exec(decrypt, Start(init), acts);
            LastBump(init, s.done, channelId, s.store)
  {
    EverySchedule(decrypt, init, acts);
    SerialLastBump(decrypt, init, Exec(decrypt, Start(init), acts).done, channelId);
  }

  // ---- nothing is stranded -------------------------------------------------

  function Ahead(phase: Phase): nat {
    match phase
    case Created => 3
    case Found(_) => 2
    case Updated => 1
    case Finishing => 0
  }

  function Weight(f: Flush): nat {
    if f.at >= |f.batch| then 0
    else 3 * (|f.batch| - f.at) + Ahead(f.phase)
  }

  function Work(s: State): nat {
    if s.flushes == [] then 0 else 1 + Weight(s.flushes[0])
  }

  lemma {:induction false} ResumeShrinksWork(decrypt: Decryptor, s: State, t: Tick)
    requires Awake(s) && |s.flushes| == 1
    ensures var r := Step(decrypt, s, Resume(0, t));
            Work(r) < Work(s) && r.queue == s.queue && r.arrived == s.arrived
  {
  }

  /** Let the running flush finish, then fire the pending timer, until nothing is left to do. */
  function Drain(decrypt: Decryptor, init: Store, s: State, t: Tick): seq<Action>
    requires Inv(decrypt, init, s)
    decreases |s.queue|, Work(s)
  {
    if s.flushes != [] then
      ResumeShrinksWork(decrypt, s, t);
      StepKeepsInv(decrypt, init, s, Resume(0, t));
      [Resume(0, t)] + Drain(decrypt, init, Step(decrypt, s, Resume(0, t)), t)
    else if s.queue != [] then
      StepKeepsInv(decrypt, init, s, TimerFires(t));
      [TimerFires(t)] + Drain(decrypt, init, Step(decrypt, s, TimerFires(t)), t)
    else []
  }

  /** From every reachable state the wake-ups already in place process all that has arrived, using
      resumptions and timer firings alone. */
  lemma {:induction false} WakeUpsDrain(decrypt: Decryptor, init: Store, s: State, t: Tick)
    requires Inv(decrypt, init, s)
    ensures var r := Exec(decrypt, s, Drain(decrypt, init, s, t));
            && r.queue == [] && r.flushes == [] && r.arrived == s.arrived
            && Payloads(r.done) == s.arrived && r.store == Serial(decrypt, init, r.done)
            && r.reported == |s.arrived|
    ensures forall a | a in Drain(decrypt, init, s, t) :: a.Resume? || a.TimerFires?
    decreases |s.queue|, Work(s)
  {
    if s.flushes != [] {
      ResumeShrinksWork(decrypt, s, t);
      StepKeepsInv(decrypt, init, s, Resume(0, t));
      WakeUpsDrain(decrypt, init, Step(decrypt, s, Resume(0, t)), t);
    } else if s.queue != [] {
      StepKeepsInv(decrypt, init, s, TimerFires(t));
      WakeUpsDrain(decrypt, init, Step(decrypt, s, TimerFires(t)), t);
    } else {
      assert Payloads(s.done) + [] + [] == Payloads(s.done);
    }
  }
}

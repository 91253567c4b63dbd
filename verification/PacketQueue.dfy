/** The ring of received packets between the receiving thread and the worker, with its counting
    conditional, as a machine whose steps are the stretches either thread runs under a mutex. */
module PacketQueue {

  /** One element of the ring. */
  datatype Slot = Slot(pkt: seq<bv8>, addr: nat, size: nat)

  /** packetqueue_run: waiting for a packet, about to advance wpos, about to signal. */
  datatype Producer = Receiving | ToCommit(size: nat) | ToSignal

  /** The worker: using the packet it got, or inside packetqueue_waitpkt and conditional_wait. */
  datatype Consumer = Using | Checking | ToWait | Asleep | Woken | ToTake

  /** arrived are the packets that came in, received those committed to the ring and returned
      those handed out so far. waits is how many signals were waited for. */
  datatype State = State(buffer: seq<Slot>, rpos: nat, wpos: nat, queue: int,
                         producer: Producer, consumer: Consumer,
                         ghost arrived: seq<Slot>, ghost received: seq<Slot>, ghost returned: seq<Slot>, ghost waits: nat)

  function Bump(pos: nat, sz: nat): nat
    requires sz > 0
  {
    if pos + 1 >= sz then pos + 1 - sz else pos + 1
  }

  ghost predicate Shape(s: State) {
    |s.buffer| >= 2 && s.rpos < |s.buffer| && s.wpos < |s.buffer|
  }

  ghost predicate Init(s: State) {
    && Shape(s)
    && s.rpos == s.wpos == 0 && s.queue == 0
    && s.producer == Receiving && s.consumer == Checking
    && s.arrived == s.received == s.returned == [] && s.waits == 0
  }

  // ---- The producer's steps ----

  /** A receive writes the slot at wpos. An empty one is reported and retried. */
  ghost predicate Receive(s: State, s': State, pkt: seq<bv8>, addr: nat, size: nat)
    requires Shape(s)
  {
    && s.producer == Receiving
    && s' == s.(buffer := s.buffer[s.wpos := s.buffer[s.wpos].(pkt := pkt, addr := addr)],
                producer := if size > 0 then ToCommit(size) else Receiving,
                arrived := if size > 0 then s.arrived + [Slot(pkt, addr, size)] else s.arrived)
  }

  ghost predicate Commit(s: State, s': State)
    requires Shape(s)
  {
    && s.producer.ToCommit?
    && var slot := s.buffer[s.wpos].(size := s.producer.size);
       s' == s.(buffer := s.buffer[s.wpos := slot], wpos := Bump(s.wpos, |s.buffer|),
                producer := ToSignal, received := s.received + [slot])
  }

  /** conditional_signal: counts, and wakes the consumer if it is waiting. */
  ghost predicate Signal(s: State, s': State) {
    && s.producer == ToSignal
    && s' == s.(queue := s.queue + 1, producer := Receiving,
                consumer := if s.consumer == Asleep then Woken else s.consumer)
  }

  // ---- The consumer's steps ----

  ghost predicate Call(s: State, s': State) {
    s.consumer == Using && s' == s.(consumer := Checking)
  }

  ghost predicate Check(s: State, s': State) {
    s.consumer == Checking && s' == s.(consumer := if s.rpos != s.wpos then ToTake else ToWait)
  }

  /** conditional_wait: takes a backlogged signal, or goes to sleep. */
  ghost predicate Wait(s: State, s': State) {
    && s.consumer == ToWait
    && s' == if s.queue != 0 then s.(queue := s.queue - 1, consumer := Checking, waits := s.waits + 1) else s.(consumer := Asleep)
  }

  ghost predicate Wake(s: State, s': State) {
    s.consumer == Woken && s' == s.(queue := s.queue - 1, consumer := Checking, waits := s.waits + 1)
  }

  ghost predicate Take(s: State, s': State)
    requires Shape(s)
  {
    && s.consumer == ToTake
    && s' == s.(rpos := Bump(s.rpos, |s.buffer|), consumer := Using, returned := s.returned + [s.buffer[s.rpos]])
  }

  ghost predicate Next(s: State, s': State) {
    && Shape(s)
    && (|| (exists pkt, addr, size :: Receive(s, s', pkt, addr, size))
        || Commit(s, s') || Signal(s, s')
        || Call(s, s') || Check(s, s') || Wait(s, s') || Wake(s, s') || Take(s, s'))
  }

  // ---- Runs ----

  /** The backlog as the producer computes it. */
  function Backlog(s: State): int {
    if s.wpos - s.rpos < 0 then s.wpos - s.rpos + |s.buffer| else s.wpos - s.rpos
  }

  ghost predicate Run(states: seq<State>) {
    && |states| > 0 && Init(states[0])
    && forall i :: 0 <= i < |states| - 1 ==> Next(states[i], states[i + 1])
  }

  /** The hypothesis the source leaves to its callers: there is no check for a full ring. */
  ghost predicate Bounded(s: State) {
    Backlog(s) <= |s.buffer| - 2
  }

  // ---- The invariant ----

  ghost function Unread(s: State): int {
    |s.received| - |s.returned|
  }

  /** Packet number i lies in this slot. */
  function SlotOf(i: int, sz: nat): nat
    requires sz > 0
  {
    i % sz
  }

  /** The ring holds the unread packets, and the one in use. */
  ghost predicate Ring(s: State)
    requires Shape(s)
  {
    var sz := |s.buffer|;
    && 0 <= Unread(s) <= sz - 2
    && s.wpos == SlotOf(|s.received|, sz) && s.rpos == SlotOf(|s.returned|, sz)
    && s.returned == s.received[..|s.returned|]
    && (forall i :: |s.returned| <= i < |s.received| ==> s.buffer[SlotOf(i, sz)] == s.received[i])
    && (s.consumer == Using ==> s.returned != [] && s.buffer[SlotOf(|s.returned| - 1, sz)] == s.received[|s.returned| - 1])
    && (s.consumer == ToTake ==> Unread(s) > 0)
  }

  /** No signal is lost: unread data that a waiting consumer does not know of has a signal
      counted or about to be sent. */
  ghost predicate Signals(s: State) {
    && s.queue >= 0
    && (s.consumer == Asleep ==> s.queue == 0)
    && (s.consumer == Woken ==> s.queue > 0)
    && (s.consumer in {ToWait, Asleep} && Unread(s) > 0 ==> s.queue > 0 || s.producer == ToSignal)
  }

  /** What came in is what was committed, and the packet that the producer is about to commit.
      Empty packets are not among them. */
  ghost predicate Arrivals(s: State)
    requires Shape(s)
  {
    && s.arrived == s.received + (if s.producer.ToCommit? then [s.buffer[s.wpos].(size := s.producer.size)] else [])
    && (forall i :: 0 <= i < |s.arrived| ==> s.arrived[i].size > 0)
  }

  /** Every packet is signalled once, and a signal is waited for or still counted. */
  ghost predicate Counted(s: State) {
    s.queue + s.waits == |s.received| - (if s.producer == ToSignal then 1 else 0)
  }

  ghost predicate Inv(s: State) {
    Shape(s) && Ring(s) && Signals(s) && Arrivals(s) && Counted(s)
  }

  lemma BumpIsNext(i: nat, sz: nat)
    requires sz > 0
    ensures Bump(SlotOf(i, sz), sz) == SlotOf(i + 1, sz)
  {
    var q, r := i / sz, i % sz;
    assert i == sz * q + r;
    if r + 1 == sz {
      assert i + 1 == sz * (q + 1);
      ModOf(sz, q + 1, 0);
    } else {
      ModOf(sz, q, r + 1);
    }
  }

  lemma ModOf(sz: nat, q: nat, r: nat)
    requires r < sz
    ensures (sz * q + r) % sz == r
  {
    if q > 0 {
      assert sz * q == sz * (q - 1) + sz;
      ModOf(sz, q - 1, r);
      assert (sz * (q - 1) + r + sz) % sz == (sz * (q - 1) + r) % sz by { ModAdd(sz * (q - 1) + r, sz); }
    }
  }

  lemma Multiples(sz: nat, d: int)
    ensures d == 0 ==> sz * d == 0
    ensures d == 1 ==> sz * d == sz
    ensures d >= 1 ==> sz * d >= sz
    ensures d >= 2 ==> sz * d >= 2 * sz
    ensures d <= -1 ==> sz * d + sz <= 0
  {
    if d >= 2 {
      assert sz * d == 2 * sz + sz * (d - 2);
    } else if d <= -1 {
      assert sz * d + sz == -(sz * (-1 - d));
    }
  }

  lemma ModAdd(x: nat, sz: nat)
    requires sz > 0
    ensures (x + sz) % sz == x % sz
  {
    var d := (x + sz) / sz - x / sz - 1;
    assert sz * d == x % sz - (x + sz) % sz;
    Multiples(sz, d);
  }

  /** Packets less than a ring apart lie in different slots. */
  lemma SlotsDiffer(i: nat, j: nat, sz: nat)
    requires sz > 0 && i < j < i + sz
    ensures SlotOf(i, sz) != SlotOf(j, sz)
  {
    var d := j / sz - i / sz;
    assert i == sz * (i / sz) + i % sz && j == sz * (j / sz) + j % sz;
    assert j - i == sz * d + (j % sz - i % sz);
    Multiples(sz, d);
  }

  /** The producer's next slot is neither unread nor in use. */
  lemma FreshSlot(s: State)
    requires Shape(s) && Ring(s)
    ensures forall i :: 0 <= i && |s.returned| - 1 <= i < |s.received| ==> SlotOf(i, |s.buffer|) != s.wpos
  {
    forall i | 0 <= i && |s.returned| - 1 <= i < |s.received| ensures SlotOf(i, |s.buffer|) != s.wpos {
      SlotsDiffer(i, |s.received|, |s.buffer|);
    }
  }

  lemma BacklogIsUnread(s: State)
    requires Shape(s) && 0 <= Unread(s) < |s.buffer|
    requires s.wpos == SlotOf(|s.received|, |s.buffer|) && s.rpos == SlotOf(|s.returned|, |s.buffer|)
    ensures Backlog(s) == Unread(s)
  {
    var sz := |s.buffer|;
    var n, m := |s.received|, |s.returned|;
    var d := n / sz - m / sz;
    assert n == sz * (n / sz) + s.wpos && m == sz * (m / sz) + s.rpos;
    assert Unread(s) == sz * d + (s.wpos - s.rpos);
    Multiples(sz, d);
  }

  lemma InitInv(s: State)
    requires Init(s)
    ensures Inv(s)
  {
  }

  lemma ReceiveKeeps(s: State, s': State, pkt: seq<bv8>, addr: nat, size: nat)
    requires Inv(s) && Receive(s, s', pkt, addr, size)
    ensures Inv(s')
  {
    FreshSlot(s);
  }

  lemma CommitKeeps(s: State, s': State)
    requires Inv(s) && Commit(s, s') && Bounded(s')
    ensures Inv(s')
  {
    FreshSlot(s);
    BumpIsNext(|s.received|, |s.buffer|);
    BacklogIsUnread(s');
  }

  lemma TakeKeeps(s: State, s': State)
    requires Inv(s) && Take(s, s')
    ensures Inv(s')
  {
    BumpIsNext(|s.returned|, |s.buffer|);
  }

  lemma NextKeeps(s: State, s': State)
    requires Inv(s) && Next(s, s') && Bounded(s')
    ensures Inv(s')
  {
    if pkt, addr, size :| Receive(s, s', pkt, addr, size) {
      ReceiveKeeps(s, s', pkt, addr, size);
    } else if Commit(s, s') {
      CommitKeeps(s, s');
    } else if Take(s, s') {
      TakeKeeps(s, s');
    } else if Check(s, s') {
      CheckKeeps(s, s');
    }
  }

  lemma CheckKeeps(s: State, s': State)
    requires Inv(s) && Check(s, s')
    ensures Inv(s')
  {
    BacklogIsUnread(s);
  }

  lemma {:induction false} RunKeeps(states: seq<State>, i: nat)
    requires Run(states) && i < |states|
    requires forall j :: 0 <= j < |states| ==> Bounded(states[j])
    ensures Inv(states[i])
  {
    if i == 0 {
      InitInv(states[0]);
    } else {
      RunKeeps(states, i - 1);
      assert Next(states[i - 1], states[i]);
      NextKeeps(states[i - 1], states[i]);
    }
  }

  // ---- What it means for the two threads ----

  /** In every interleaving that keeps the backlog two short of the ring, the packets handed
      out are the packets received, in order, none lost, repeated or altered, and the last of
      them stays as it was in its slot for as long as the worker uses it. */
  lemma InOrder(states: seq<State>, i: nat)
    requires Run(states) && i < |states|
    requires forall j :: 0 <= j < |states| ==> Bounded(states[j])
    ensures states[i].returned <= states[i].received <= states[i].arrived && |states[i].arrived| - |states[i].received| <= 1
    ensures forall k :: 0 <= k < |states[i].arrived| ==> states[i].arrived[k].size > 0
    ensures Shape(states[i])
    ensures var s := states[i];
            s.consumer == Using ==>
              s.returned != [] && s.buffer[(|s.returned| - 1) % |s.buffer|] == s.returned[|s.returned| - 1]
  {
    RunKeeps(states, i);
  }

  /** In such an interleaving the signals add up. */
  lemma SignalsAddUp(states: seq<State>, i: nat)
    requires Run(states) && i < |states|
    requires forall j :: 0 <= j < |states| ==> Bounded(states[j])
    ensures var s := states[i];
      s.queue >= 0 && s.queue + s.waits == if s.producer == ToSignal then |s.received| - 1 else |s.received|
  {
    RunKeeps(states, i);
  }

  /** In such an interleaving the worker never sleeps on unread data, except while the producer
      is between advancing wpos and signalling. */
  lemma NoLostWakeup(states: seq<State>, i: nat)
    requires Run(states) && i < |states|
    requires forall j :: 0 <= j < |states| ==> Bounded(states[j])
    ensures states[i].consumer == Asleep && states[i].rpos != states[i].wpos ==> states[i].producer == ToSignal
  {
    RunKeeps(states, i);
    BacklogIsUnread(states[i]);
  }

  /** The bound is sharp: with one more packet unread, the next receive writes into the packet
      the worker is using. */
  lemma FullRingOverwrites(s: State, s': State, pkt: seq<bv8>, addr: nat, size: nat)
    requires Shape(s) && s.returned != [] && s.consumer == Using
    requires s.wpos == SlotOf(|s.received|, |s.buffer|) && Unread(s) == |s.buffer| - 1
    requires Receive(s, s', pkt, addr, size) && pkt != s.buffer[s.wpos].pkt
    ensures s'.consumer == Using
    ensures var held := (|s.returned| - 1) % |s.buffer|; s'.buffer[held] != s.buffer[held]
  {
    ModAdd(|s.returned| - 1, |s.buffer|);
  }

  // ---- The ring can get there ----

  ghost predicate EndsAt(states: seq<State>, s: State) {
    Run(states) && states[|states| - 1] == s
  }

  lemma Extend(states: seq<State>, s: State, s': State) returns (longer: seq<State>)
    requires EndsAt(states, s) && Next(s, s')
    ensures EndsAt(longer, s') && longer == states + [s']
  {
    longer := states + [s'];
    hide Next;
    forall i | 0 <= i < |longer| - 1 ensures Next(longer[i], longer[i + 1]) {
      assert i < |states| - 1 ==> Next(states[i], states[i + 1]);
    }
  }

  /** A packet received, committed and signalled while the consumer is awake. */
  ghost function Pushed(s: State, slot: Slot): State
    requires Shape(s)
  {
    s.(buffer := s.buffer[s.wpos := slot], wpos := Bump(s.wpos, |s.buffer|), queue := s.queue + 1,
       producer := Receiving, arrived := s.arrived + [slot], received := s.received + [slot])
  }

  lemma Push(states: seq<State>, s: State, slot: Slot) returns (longer: seq<State>)
    requires EndsAt(states, s) && Shape(s) && s.producer == Receiving && slot.size > 0
    requires s.consumer == Checking || s.consumer == Using
    ensures EndsAt(longer, Pushed(s, slot))
  {
    var s1 := s.(buffer := s.buffer[s.wpos := s.buffer[s.wpos].(pkt := slot.pkt, addr := slot.addr)], producer := ToCommit(slot.size),
                 arrived := s.arrived + [slot]);
    var s2 := Pushed(s, slot).(queue := s.queue, producer := ToSignal);
    assert Receive(s, s1, slot.pkt, slot.addr, slot.size);
    assert Commit(s1, s2) by {
      assert s1.buffer[s.wpos].(size := slot.size) == slot;
      assert s1.buffer[s.wpos := slot] == s.buffer[s.wpos := slot];
    }
    assert Signal(s2, Pushed(s, slot));
    hide Receive, Commit, Signal, Pushed;
    longer := Extend(states, s, s1);
    longer := Extend(longer, s1, s2);
    longer := Extend(longer, s2, Pushed(s, slot));
  }

  /** One packet is in use, n more are unread. */
  ghost predicate Filled(s: State, sz: nat, n: nat) {
    && |s.buffer| == sz >= 2 && Shape(s) && s.producer == Receiving && s.consumer == Using
    && |s.returned| == 1 && |s.received| == n + 1 && s.wpos == SlotOf(n + 1, sz)
  }

  lemma FirstPacket(sz: nat) returns (states: seq<State>, s: State)
    requires sz >= 2
    ensures EndsAt(states, s) && Filled(s, sz, 0)
  {
    var slot := Slot([], 0, 1);
    var s0 := State(seq(sz, _ => slot), 0, 0, 0, Receiving, Checking, [], [], [], 0);
    states := [s0];
    assert Init(s0);
    states := Push(states, s0, slot);
    var s1 := Pushed(s0, slot);
    var s2 := s1.(consumer := ToTake);
    s := s2.(rpos := 1 % sz, consumer := Using, returned := [slot]);
    assert Check(s1, s2) && Take(s2, s);
    states := Extend(states, s1, s2);
    states := Extend(states, s2, s);
  }

  lemma {:induction false} FillRing(sz: nat, n: nat) returns (states: seq<State>, s: State)
    requires sz >= 2
    ensures EndsAt(states, s) && Filled(s, sz, n)
  {
    if n == 0 {
      states, s := FirstPacket(sz);
    } else {
      var slot := Slot([], 0, 1);
      var before;
      states, before := FillRing(sz, n - 1);
      states := Push(states, before, slot);
      s := Pushed(before, slot);
      BumpIsNext(n, sz);
      hide EndsAt;
    }
  }

  /** From the start, a ring of any size can be filled while its first packet is in use, and the
      next receive overwrites that one. */
  lemma FullRingReached(sz: nat) returns (states: seq<State>)
    requires sz >= 2
    ensures Run(states) && |states| >= 2
    ensures var s, s' := states[|states| - 2], states[|states| - 1];
      && |s.buffer| == |s'.buffer| == sz && s.consumer == s'.consumer == Using && s.returned == s'.returned != []
      && Unread(s) == sz - 1
      && var held := (|s.returned| - 1) % sz; s'.buffer[held] != s.buffer[held]
  {
    var s;
    states, s := FillRing(sz, sz - 1);
    var slot := s.buffer[s.wpos].(pkt := s.buffer[s.wpos].pkt + [0]);
    var s' := s.(buffer := s.buffer[s.wpos := slot], producer := ToCommit(1), arrived := s.arrived + [slot.(size := 1)]);
    assert Receive(s, s', slot.pkt, slot.addr, 1);
    FullRingOverwrites(s, s', slot.pkt, slot.addr, 1);
    states := Extend(states, s, s');
  }
}

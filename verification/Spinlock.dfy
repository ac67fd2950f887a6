/**
 * The latch-and-lock spinlock. Any number of agents take turns at single atomic steps: a load, a
 * compare-and-exchange, a fetch-and-subtract, or a write to the guarded value. An agent stands for one
 * call of `read` or `write` and the guard it returns.
 */
module Spinlock {
  import opened Base

  type Agent = nat

  const LATCH := 0x4000_0000
  const LOCK := 0x8000_0000
  const WORDS := 0x1_0000_0000

  predicate IsLatched(word: nat) {
    word / LATCH % 2 == 1
  }

  predicate IsLocked(word: nat) {
    word / LOCK % 2 == 1
  }

  function ReadersField(word: nat): nat {
    word % LATCH
  }

  function SetLatch(word: nat): nat {
    if IsLatched(word) then word else word + LATCH
  }

  function SetLock(word: nat): nat {
    if IsLocked(word) then word else word + LOCK
  }

  datatype Phase =
    | Idle
    | ReadStart                 // in `read`, about to load
    | ReadLoaded(seen: nat)      // in `read`, about to compare and exchange
    | Reading                   // holding a read guard
    | WriteStart                // in `write`, about to load in the first loop
    | WriteLoaded(seen: nat)
    | Latched                   // in `write`, about to load in the second loop
    | LockLoaded(seen: nat)
    | Writing                   // holding a write guard
    | DropLoaded(seen: nat)      // dropping a write guard
    | Panicked

  datatype World<V> = World(word: nat, value: V, agents: map<Agent, Phase>)

  /** Start an operation, run its next atomic instruction (the first one of a held guard drops it), or write under a write guard. */
  datatype Action<V> = CallRead | CallWrite | Step | Store(v: V)

  function PhaseOf<V>(w: World<V>, a: Agent): Phase {
    if a in w.agents then w.agents[a] else Idle
  }

  function To<V>(w: World<V>, a: Agent, word: nat, p: Phase): World<V> {
    World(word, w.value, w.agents[a := p])
  }

  /** The next atomic instruction of an agent. */
  function Advance<V>(w: World<V>, a: Agent): World<V> {
    match PhaseOf(w, a)
    case Idle => w
    case ReadStart => To(w, a, w.word, ReadLoaded(w.word))
    case ReadLoaded(seen) =>
      if !IsLatched(seen) && !IsLocked(seen) && w.word == seen then To(w, a, (seen + 1) % WORDS, Reading)
      else To(w, a, w.word, ReadStart)
    case Reading => To(w, a, (w.word + WORDS - 1) % WORDS, Idle)
    case WriteStart => To(w, a, w.word, WriteLoaded(w.word))
    case WriteLoaded(seen) =>
      if IsLatched(seen) then To(w, a, w.word, WriteStart)
      else if IsLocked(seen) then To(w, a, w.word, Panicked)
      else if w.word == seen then To(w, a, SetLatch(seen), Latched)
      else To(w, a, w.word, WriteStart)
    case Latched => To(w, a, w.word, LockLoaded(w.word))
    case LockLoaded(seen) =>
      if ReadersField(seen) != 0 then To(w, a, w.word, Latched)
      else if w.word == seen then To(w, a, SetLock(seen), Writing)
      else To(w, a, w.word, Panicked)
    case Writing => To(w, a, w.word, DropLoaded(w.word))
    case DropLoaded(seen) =>
      if ReadersField(seen) > 0 then To(w, a, w.word, Panicked)
      else if w.word == seen then To(w, a, 0, Idle)
      else To(w, a, w.word, Panicked)
    case Panicked => w
  }

  /** An action that does not apply in the agent's phase changes nothing. */
  function Act<V>(w: World<V>, a: Agent, act: Action<V>): World<V> {
    match act
    case CallRead => if PhaseOf(w, a).Idle? then To(w, a, w.word, ReadStart) else w
    case CallWrite => if PhaseOf(w, a).Idle? then To(w, a, w.word, WriteStart) else w
    case Step => Advance(w, a)
    case Store(v) => if PhaseOf(w, a).Writing? then w.(value := v) else w
  }

  function Run<V>(w: World<V>, acts: seq<(Agent, Action<V>)>): World<V>
    decreases |acts|
  {
    if acts == [] then w else Run(Act(w, acts[0].0, acts[0].1), acts[1..])
  }

  function New<V>(value: V): World<V> {
    World(0, value, map[])
  }

  // ----- The invariant -----

  function Readers<V>(w: World<V>): set<Agent> {
    set a | a in w.agents && w.agents[a].Reading?
  }

  predicate HoldsLock(p: Phase) {
    p.Writing? || p.DropLoaded?
  }

  predicate HoldsLatch(p: Phase) {
    p.Latched? || p.LockLoaded? || HoldsLock(p)
  }

  /** Who is past the latch, at most one agent. */
  ghost predicate LatchedBy<V>(w: World<V>, writer: Option<Agent>) {
    forall a :: a in w.agents ==> (HoldsLatch(w.agents[a]) <==> writer == Some(a))
  }

  function WordFor(readers: nat, latched: bool, locked: bool): nat {
    readers + (if latched then LATCH else 0) + (if locked then LOCK else 0)
  }

  /** What the agents make of the word, given who is past the latch. */
  ghost predicate InvWith<V>(w: World<V>, writer: Option<Agent>) {
    var locked := writer.Some? && HoldsLock(PhaseOf(w, writer.value));
    && LatchedBy(w, writer)
    && (writer.Some? ==> writer.value in w.agents)
    && w.word == WordFor(|Readers(w)|, writer.Some?, locked)
    && |Readers(w)| <= LATCH
    && (writer.Some? ==> |Readers(w)| < LATCH)
    && (locked ==> Readers(w) == {})
    && (forall a :: a in w.agents ==> AgentInv(w, w.agents[a]))
  }

  /** What an agent knows about the word from what it loaded. */
  predicate AgentInv<V>(w: World<V>, p: Phase) {
    match p
    case LockLoaded(seen) => ReadersField(seen) == 0 ==> w.word == seen == LATCH
    case DropLoaded(seen) => w.word == seen
    case WriteLoaded(seen) => IsLocked(seen) ==> IsLatched(seen)
    case Panicked => false
    case _ => true
  }

  ghost predicate Inv<V>(w: World<V>) {
    exists writer :: InvWith(w, writer)
  }

  lemma WordBits(readers: nat, latched: bool, locked: bool)
    requires readers <= LATCH && (latched ==> readers < LATCH) && (locked ==> latched)
    ensures var word := WordFor(readers, latched, locked);
            && word < WORDS
            && (IsLocked(word) <==> locked)
            && (IsLatched(word) <==> latched || readers == LATCH)
            && ReadersField(word) == readers % LATCH
  {
  }

  lemma ReadersAfter<V>(w: World<V>, a: Agent, word: nat, p: Phase)
    ensures Readers(To(w, a, word, p)) == if p.Reading? then Readers(w) + {a} else Readers(w) - {a}
  {
  }

  /** An agent that neither joins nor leaves the readers or the latch, and leaves the word alone. */
  lemma KeepsByStanding<V>(w: World<V>, writer: Option<Agent>, a: Agent, p: Phase)
    requires InvWith(w, writer) && AgentInv(w, p)
    requires p.Reading? <==> PhaseOf(w, a).Reading?
    requires HoldsLatch(p) <==> HoldsLatch(PhaseOf(w, a))
    requires HoldsLock(p) <==> HoldsLock(PhaseOf(w, a))
    ensures InvWith(To(w, a, w.word, p), writer)
  {
    var w' := To(w, a, w.word, p);
    ReadersAfter(w, a, w.word, p);
    assert Readers(w') == Readers(w);
    forall b | b in w'.agents ensures AgentInv(w', w'.agents[b]) {
      assert b != a ==> AgentInv(w, w.agents[b]);
    }
    forall b | b in w'.agents ensures HoldsLatch(w'.agents[b]) <==> writer == Some(b) {
      assert b != a ==> b in w.agents;
    }
  }

  /** While nobody is past the latch, no agent relies on the word. */
  lemma NobodyRelies<V>(w: World<V>, a: Agent, word: nat, p: Phase)
    requires InvWith(w, None) && AgentInv(World(word, w.value, w.agents), p)
    ensures var w' := To(w, a, word, p); forall b :: b in w'.agents ==> AgentInv(w', w'.agents[b])
  {
  }

  lemma KeepsByEntering<V>(w: World<V>, writer: Option<Agent>, a: Agent)
    requires InvWith(w, writer) && PhaseOf(w, a).ReadLoaded? && !IsLatched(w.word) && !IsLocked(w.word)
    ensures InvWith(To(w, a, (w.word + 1) % WORDS, Reading), None)
  {
    WordBits(|Readers(w)|, writer.Some?, writer.Some? && HoldsLock(PhaseOf(w, writer.value)));
    var w' := To(w, a, (w.word + 1) % WORDS, Reading);
    ReadersAfter(w, a, (w.word + 1) % WORDS, Reading);
    assert a !in Readers(w);
    assert |Readers(w')| == |Readers(w)| + 1;
    NobodyRelies(w, a, w'.word, Reading);
  }

  lemma KeepsByLeaving<V>(w: World<V>, writer: Option<Agent>, a: Agent)
    requires InvWith(w, writer) && PhaseOf(w, a).Reading?
    ensures InvWith(To(w, a, (w.word + WORDS - 1) % WORDS, Idle), writer)
  {
    var w' := To(w, a, (w.word + WORDS - 1) % WORDS, Idle);
    ReadersAfter(w, a, w'.word, Idle);
    assert a in Readers(w);
    assert |Readers(w')| == |Readers(w)| - 1;
    assert w'.word == w.word - 1;
    forall b | b in w'.agents ensures AgentInv(w', w'.agents[b]) {
      assert b != a ==> AgentInv(w, w.agents[b]);
    }
  }

  lemma KeepsByLatching<V>(w: World<V>, writer: Option<Agent>, a: Agent)
    requires InvWith(w, writer) && PhaseOf(w, a).WriteLoaded? && !IsLatched(w.word)
    ensures InvWith(To(w, a, SetLatch(w.word), Latched), Some(a))
  {
    WordBits(|Readers(w)|, writer.Some?, writer.Some? && HoldsLock(PhaseOf(w, writer.value)));
    var w' := To(w, a, SetLatch(w.word), Latched);
    ReadersAfter(w, a, w'.word, Latched);
    assert Readers(w') == Readers(w);
    NobodyRelies(w, a, w'.word, Latched);
  }

  lemma KeepsByLocking<V>(w: World<V>, writer: Option<Agent>, a: Agent)
    requires InvWith(w, writer) && PhaseOf(w, a) == LockLoaded(LATCH) && w.word == LATCH
    ensures InvWith(To(w, a, SetLock(LATCH), Writing), Some(a))
  {
    var w' := To(w, a, SetLock(LATCH), Writing);
    assert writer == Some(a);
    ReadersAfter(w, a, w'.word, Writing);
    assert Readers(w') == Readers(w) == {};
  }

  lemma KeepsByUnlocking<V>(w: World<V>, writer: Option<Agent>, a: Agent)
    requires InvWith(w, writer) && PhaseOf(w, a).DropLoaded?
    ensures InvWith(To(w, a, 0, Idle), None)
  {
    var w' := To(w, a, 0, Idle);
    assert writer == Some(a);
    ReadersAfter(w, a, 0, Idle);
    assert Readers(w') == {};
  }

  /** One atomic instruction keeps the invariant. */
  lemma AdvanceKeeps<V>(w: World<V>, writer: Option<Agent>, a: Agent)
    requires InvWith(w, writer)
    ensures Inv(Advance(w, a))
  {
    WordBits(|Readers(w)|, writer.Some?, writer.Some? && HoldsLock(PhaseOf(w, writer.value)));
    var p := PhaseOf(w, a);
    match p
    case ReadStart => KeepsByStanding(w, writer, a, ReadLoaded(w.word));
    case ReadLoaded(seen) =>
      if !IsLatched(seen) && !IsLocked(seen) && w.word == seen {
        KeepsByEntering(w, writer, a);
      } else {
        KeepsByStanding(w, writer, a, ReadStart);
      }
    case Reading => KeepsByLeaving(w, writer, a);
    case WriteStart => KeepsByStanding(w, writer, a, WriteLoaded(w.word));
    case WriteLoaded(seen) =>
      if !IsLatched(seen) && w.word == seen {
        KeepsByLatching(w, writer, a);
      } else {
        KeepsByStanding(w, writer, a, WriteStart);
      }
    case Latched => KeepsByStanding(w, writer, a, LockLoaded(w.word));
    case LockLoaded(seen) =>
      if ReadersField(seen) != 0 {
        KeepsByStanding(w, writer, a, Latched);
      } else {
        KeepsByLocking(w, writer, a);
      }
    case Writing => KeepsByStanding(w, writer, a, DropLoaded(w.word));
    case DropLoaded(seen) => KeepsByUnlocking(w, writer, a);
    case _ =>
  }

  lemma ActKeeps<V>(w: World<V>, a: Agent, act: Action<V>)
    requires Inv(w)
    ensures Inv(Act(w, a, act))
  {
    var writer :| InvWith(w, writer);
    match act
    case CallRead =>
      if PhaseOf(w, a).Idle? {
        KeepsByStanding(w, writer, a, ReadStart);
      }
    case CallWrite =>
      if PhaseOf(w, a).Idle? {
        KeepsByStanding(w, writer, a, WriteStart);
      }
    case Step =>
      AdvanceKeeps(w, writer, a);
    case Store(v) =>
      if PhaseOf(w, a).Writing? {
        assert Readers(w.(value := v)) == Readers(w);
        assert InvWith(w.(value := v), writer);
      }
  }

  lemma NewInv<V>(value: V)
    ensures Inv(New(value))
  {
    assert Readers(New(value)) == {};
    assert InvWith(New(value), None);
  }

  /** Every reachable state satisfies the invariant, whatever the agents and their interleaving. */
  lemma {:induction false} RunKeeps<V>(w: World<V>, acts: seq<(Agent, Action<V>)>)
    requires Inv(w)
    ensures Inv(Run(w, acts))
    decreases |acts|
  {
    if acts != [] {
      ActKeeps(w, acts[0].0, acts[0].1);
      RunKeeps(Act(w, acts[0].0, acts[0].1), acts[1..]);
    }
  }

  // ----- What it means -----

  /** No "call the programmer" panic is ever reached, with any number of readers. */
  lemma NeverPanics<V>(value: V, acts: seq<(Agent, Action<V>)>, a: Agent)
    ensures !PhaseOf(Run(New(value), acts), a).Panicked?
  {
    NewInv(value);
    RunKeeps(New(value), acts);
  }

  predicate HoldsGuard(p: Phase) {
    p.Reading? || HoldsLock(p)
  }

  /** A held write guard excludes every other guard. */
  lemma WriterExcludes<V>(value: V, acts: seq<(Agent, Action<V>)>, a: Agent, b: Agent)
    ensures var w := Run(New(value), acts);
            HoldsLock(PhaseOf(w, a)) && HoldsGuard(PhaseOf(w, b)) ==> a == b
  {
    NewInv(value);
    RunKeeps(New(value), acts);
    var w := Run(New(value), acts);
    if HoldsLock(PhaseOf(w, a)) && HoldsGuard(PhaseOf(w, b)) {
      assert b !in Readers(w);
    }
  }

  /**
   * The word is the reader count plus a latch and a lock bit, set exactly while some agent is past them. Read
   * as bits it says the same as long as there are fewer than 2^30 readers; the 2^30th carries into the latch
   * bit, and no further reader gets in.
   */
  lemma WordMeaning<V>(value: V, acts: seq<(Agent, Action<V>)>)
    ensures var w := Run(New(value), acts);
            var n := |Readers(w)|;
            var latched := exists a :: a in w.agents && HoldsLatch(w.agents[a]);
            var locked := exists a :: a in w.agents && HoldsLock(w.agents[a]);
            && n <= LATCH
            && w.word == WordFor(n, latched, locked)
            && (IsLocked(w.word) <==> locked)
            && (IsLocked(w.word) ==> IsLatched(w.word))
            && ((IsLatched(w.word) <==> latched) && ReadersField(w.word) == n <==> n < LATCH)
  {
    NewInv(value);
    RunKeeps(New(value), acts);
    var w := Run(New(value), acts);
    var writer :| InvWith(w, writer);
    WordBits(|Readers(w)|, writer.Some?, writer.Some? && HoldsLock(PhaseOf(w, writer.value)));
    if writer.Some? {
      assert HoldsLatch(w.agents[writer.value]);
    }
    if locker: Agent :| locker in w.agents && HoldsLock(w.agents[locker]) {
      assert HoldsLatch(w.agents[locker]);
    }
  }

  // ----- Refinement -----

  /** A readers-writer lock as its users see it. */
  datatype Room<V> = Room(readers: set<Agent>, writer: Option<Agent>, value: V)

  datatype Visit<V> = Wait | Enter(a: Agent) | Leave(a: Agent) | EnterAlone(a: Agent) | Change(a: Agent, v: V) | LeaveAlone(a: Agent)

  ghost predicate Allowed<V>(r: Room<V>, r': Room<V>, visit: Visit<V>) {
    match visit
    case Wait => r' == r
    case Enter(a) => r.writer.None? && a !in r.readers && r' == r.(readers := r.readers + {a})
    case Leave(a) => a in r.readers && r' == r.(readers := r.readers - {a})
    case EnterAlone(a) => r.writer.None? && r.readers == {} && r' == r.(writer := Some(a))
    case Change(a, v) => r.writer == Some(a) && r.readers == {} && r' == r.(value := v)
    case LeaveAlone(a) => r.writer == Some(a) && r' == r.(writer := None)
  }

  /** The room that a state of the spinlock stands for. */
  ghost predicate StandsFor<V>(w: World<V>, r: Room<V>) {
    && r.readers == Readers(w)
    && r.value == w.value
    && (forall a: Agent :: HoldsLock(PhaseOf(w, a)) <==> r.writer == Some(a))
  }

  function VisitOf<V>(w: World<V>, a: Agent, act: Action<V>): Visit<V> {
    match (act, PhaseOf(w, a))
    case (Step, ReadLoaded(seen)) => if !IsLatched(seen) && !IsLocked(seen) && w.word == seen then Enter(a) else Wait
    case (Step, Reading) => Leave(a)
    case (Step, LockLoaded(seen)) => if ReadersField(seen) == 0 && w.word == seen then EnterAlone(a) else Wait
    case (Step, DropLoaded(_)) => LeaveAlone(a)
    case (Store(v), Writing) => Change(a, v)
    case _ => Wait
  }

  /** The room after one agent changes phase. */
  lemma StandsAfter<V>(w: World<V>, r: Room<V>, a: Agent, word: nat, p: Phase) returns (r': Room<V>)
    requires StandsFor(w, r) && (HoldsLock(p) ==> r.writer.None? || r.writer == Some(a))
    ensures StandsFor(To(w, a, word, p), r')
    ensures r'.readers == if p.Reading? then r.readers + {a} else r.readers - {a}
    ensures r'.writer == if HoldsLock(p) then Some(a) else if r.writer == Some(a) then None else r.writer
    ensures r'.value == r.value
  {
    ReadersAfter(w, a, word, p);
    r' := Room(Readers(To(w, a, word, p)), if HoldsLock(p) then Some(a) else if r.writer == Some(a) then None else r.writer, w.value);
  }

  lemma RoomFacts<V>(w: World<V>, writer: Option<Agent>, r: Room<V>, a: Agent)
    requires InvWith(w, writer) && StandsFor(w, r)
    ensures !IsLatched(w.word) ==> r.writer.None?
    ensures HoldsLatch(PhaseOf(w, a)) ==> r.writer.None? || r.writer == Some(a)
    ensures HoldsLock(PhaseOf(w, a)) <==> r.writer == Some(a)
    ensures a in r.readers <==> PhaseOf(w, a).Reading?
    ensures PhaseOf(w, a).LockLoaded? && ReadersField(PhaseOf(w, a).seen) == 0 ==> r.readers == {}
    ensures PhaseOf(w, a).LockLoaded? ==> r.writer.None?
    ensures PhaseOf(w, a).LockLoaded? || PhaseOf(w, a).DropLoaded? ==> AgentInv(w, PhaseOf(w, a))
    ensures PhaseOf(w, a).DropLoaded? ==> ReadersField(w.word) == 0
  {
    WordBits(|Readers(w)|, writer.Some?, writer.Some? && HoldsLock(PhaseOf(w, writer.value)));
    if r.writer.Some? {
      assert HoldsLock(PhaseOf(w, r.writer.value));
    }
  }

  lemma StepRefines<V>(w: World<V>, writer: Option<Agent>, r: Room<V>, a: Agent) returns (r': Room<V>)
    requires InvWith(w, writer) && StandsFor(w, r)
    ensures StandsFor(Advance(w, a), r') && Allowed(r, r', VisitOf(w, a, Step))
  {
    RoomFacts(w, writer, r, a);
    r' := Moved(w, r, a);
  }

  /** The part of the step that only looks at the room. */
  lemma Moved<V>(w: World<V>, r: Room<V>, a: Agent) returns (r': Room<V>)
    requires StandsFor(w, r)
    requires !IsLatched(w.word) ==> r.writer.None?
    requires HoldsLock(PhaseOf(w, a)) <==> r.writer == Some(a)
    requires a in r.readers <==> PhaseOf(w, a).Reading?
    requires PhaseOf(w, a).LockLoaded? && ReadersField(PhaseOf(w, a).seen) == 0 ==> r.readers == {}
    requires PhaseOf(w, a).LockLoaded? ==> r.writer.None?
    requires PhaseOf(w, a).LockLoaded? || PhaseOf(w, a).DropLoaded? ==> AgentInv(w, PhaseOf(w, a))
    requires PhaseOf(w, a).DropLoaded? ==> ReadersField(w.word) == 0
    ensures StandsFor(Advance(w, a), r')
    ensures Allowed(r, r', VisitOf(w, a, Step))
  {
    var w' := Advance(w, a);
    if PhaseOf(w, a).Idle? || PhaseOf(w, a).Panicked? {
      r' := r;
    } else {
      assert w' == To(w, a, w'.word, w'.agents[a]);
      r' := StandsAfter(w, r, a, w'.word, w'.agents[a]);
    }
  }

  /** Each atomic step is one allowed visit to the room, or none. */
  lemma ActRefines<V>(w: World<V>, r: Room<V>, a: Agent, act: Action<V>) returns (r': Room<V>)
    requires Inv(w) && StandsFor(w, r)
    ensures StandsFor(Act(w, a, act), r') && Allowed(r, r', VisitOf(w, a, act))
  {
    var writer :| InvWith(w, writer);
    match act
    case Step => r' := StepRefines(w, writer, r, a);
    case Store(v) =>
      r' := if PhaseOf(w, a).Writing? then r.(value := v) else r;
      assert Readers(Act(w, a, act)) == Readers(w);
    case _ =>
      if PhaseOf(w, a).Idle? {
        r' := StandsAfter(w, r, a, w.word, if act.CallRead? then ReadStart else WriteStart);
        assert a !in r.readers;
      } else {
        r' := r;
      }
  }

  /** The rooms a run goes through, each reached from the one before by an allowed visit. */
  ghost predicate Refines<V>(w: World<V>, acts: seq<(Agent, Action<V>)>, rooms: seq<Room<V>>)
    decreases |acts|
  {
    && |rooms| == |acts| + 1
    && StandsFor(w, rooms[0])
    && (acts != [] ==>
          && Allowed(rooms[0], rooms[1], VisitOf(w, acts[0].0, acts[0].1))
          && Refines(Act(w, acts[0].0, acts[0].1), acts[1..], rooms[1..]))
  }

  /** Every run of the spinlock is a run of the readers-writer lock. */
  lemma {:induction false} RunRefines<V>(w: World<V>, r: Room<V>, acts: seq<(Agent, Action<V>)>) returns (rooms: seq<Room<V>>)
    requires Inv(w) && StandsFor(w, r)
    ensures Refines(w, acts, rooms) && rooms[0] == r
    decreases |acts|
  {
    if acts == [] {
      rooms := [r];
    } else {
      var r' := ActRefines(w, r, acts[0].0, acts[0].1);
      ActKeeps(w, acts[0].0, acts[0].1);
      var rest := RunRefines(Act(w, acts[0].0, acts[0].1), r', acts[1..]);
      rooms := [r] + rest;
      assert rooms[1..] == rest;
    }
  }

  // ----- Guards over time -----

  ghost predicate Throughout<V>(w: World<V>, acts: seq<(Agent, Action<V>)>, a: Agent, holds: Phase -> bool)
    decreases |acts|
  {
    holds(PhaseOf(w, a)) && (acts != [] ==> Throughout(Act(w, acts[0].0, acts[0].1), acts[1..], a, holds))
  }

  /** Under a read guard the value never changes. */
  lemma {:induction false} ReaderSeesOneValue<V>(w: World<V>, acts: seq<(Agent, Action<V>)>, a: Agent)
    requires Inv(w) && Throughout(w, acts, a, (p: Phase) => p.Reading?)
    ensures Run(w, acts).value == w.value
    decreases |acts|
  {
    if acts != [] {
      assert a in Readers(w);
      ActKeeps(w, acts[0].0, acts[0].1);
      ReaderSeesOneValue(Act(w, acts[0].0, acts[0].1), acts[1..], a);
    }
  }

  /** While a writer is past the latch, readers only leave. */
  lemma {:induction false} LatchKeepsReadersOut<V>(w: World<V>, acts: seq<(Agent, Action<V>)>, a: Agent)
    requires Inv(w) && Throughout(w, acts, a, HoldsLatch)
    ensures Readers(Run(w, acts)) <= Readers(w)
    decreases |acts|
  {
    if acts != [] {
      var w' := Act(w, acts[0].0, acts[0].1);
      var writer :| InvWith(w, writer);
      WordBits(|Readers(w)|, writer.Some?, writer.Some? && HoldsLock(PhaseOf(w, writer.value)));
      assert writer == Some(a);
      assert Readers(w') <= Readers(w);
      ActKeeps(w, acts[0].0, acts[0].1);
      LatchKeepsReadersOut(w', acts[1..], a);
    }
  }

  /** When no operation is under way and no guard is held, the word is zero. */
  lemma QuietIsZero<V>(value: V, acts: seq<(Agent, Action<V>)>)
    ensures var w := Run(New(value), acts); (forall a: Agent :: PhaseOf(w, a).Idle?) ==> w.word == 0
  {
    NewInv(value);
    RunKeeps(New(value), acts);
    var w := Run(New(value), acts);
    if forall a: Agent :: PhaseOf(w, a).Idle? {
      assert forall a :: a in w.agents ==> PhaseOf(w, a).Idle?;
      assert Readers(w) == {};
    }
  }

  // ----- Getting in and out -----

  /** An agent that takes `n` steps while nobody else moves. */
  function Alone<V>(a: Agent, n: nat): seq<(Agent, Action<V>)> {
    seq(n, _ => (a, Step))
  }

  lemma {:induction false} RunAppend<V>(w: World<V>, x: seq<(Agent, Action<V>)>, y: seq<(Agent, Action<V>)>)
    ensures Run(w, x + y) == Run(Run(w, x), y)
    decreases |x|
  {
    if x == [] {
      assert x + y == y;
    } else {
      assert (x + y)[0] == x[0] && (x + y)[1..] == x[1..] + y;
      RunAppend(Act(w, x[0].0, x[0].1), x[1..], y);
    }
  }

  lemma RunOne<V>(w: World<V>, a: Agent, act: Action<V>)
    ensures Run(w, [(a, act)]) == Act(w, a, act)
  {
    assert [(a, act)][1..] == [];
  }

  lemma TwoSteps<V>(w: World<V>, a: Agent)
    ensures Run(w, Alone(a, 1)) == Advance(w, a) && Run(w, Alone(a, 2)) == Advance(Advance(w, a), a)
  {
    var one, two := Alone<V>(a, 1), Alone<V>(a, 2);
    assert one == [(a, Step)] && two[0] == (a, Step) && two[1..] == one;
    RunOne(w, a, Step);
    RunOne(Advance(w, a), a, Step);
  }

  lemma StepsAppend<V>(w: World<V>, a: Agent, m: nat, n: nat)
    ensures Run(w, Alone(a, m + n)) == Run(Run(w, Alone(a, m)), Alone(a, n))
  {
    assert Alone<V>(a, m + n) == Alone(a, m) + Alone(a, n);
    RunAppend(w, Alone(a, m), Alone(a, n));
  }

  /** Nobody else is past the latch or holds a guard. */
  ghost predicate NobodyElse<V>(w: World<V>, a: Agent) {
    forall b: Agent :: b != a ==> !HoldsLatch(PhaseOf(w, b)) && !PhaseOf(w, b).Reading?
  }

  /** Only this agent and the word changed. */
  ghost predicate Became<V>(w: World<V>, w': World<V>, a: Agent, word: nat, p: Phase) {
    w' == World(word, w.value, w.agents[a := p])
  }

  /** A reader that steps alone has its guard after two steps exactly when nobody is past the latch and fewer than 2^30 read; otherwise it starts over. */
  lemma ReaderEnters<V>(w: World<V>, a: Agent)
    requires Inv(w) && PhaseOf(w, a).ReadStart?
    ensures var free := |Readers(w)| < LATCH && forall b :: b in w.agents ==> !HoldsLatch(w.agents[b]);
            if free then Became(w, Run(w, Alone(a, 2)), a, w.word + 1, Reading) else Became(w, Run(w, Alone(a, 2)), a, w.word, ReadStart)
  {
    var writer :| InvWith(w, writer);
    WordBits(|Readers(w)|, writer.Some?, writer.Some? && HoldsLock(PhaseOf(w, writer.value)));
    TwoSteps(w, a);
    NobodyLatches(w, writer);
    assert w.agents[a := ReadLoaded(w.word)][a := Reading] == w.agents[a := Reading];
    assert w.agents[a := ReadLoaded(w.word)][a := ReadStart] == w.agents[a := ReadStart];
  }

  lemma NobodyLatches<V>(w: World<V>, writer: Option<Agent>)
    requires InvWith(w, writer)
    ensures writer.None? <==> forall b :: b in w.agents ==> !HoldsLatch(w.agents[b])
  {
    if writer.Some? {
      assert HoldsLatch(w.agents[writer.value]);
    }
  }

  /** A writer that steps alone has the latch after two steps under the same condition; otherwise it starts over. */
  lemma WriterLatches<V>(w: World<V>, a: Agent)
    requires Inv(w) && PhaseOf(w, a).WriteStart?
    ensures var free := |Readers(w)| < LATCH && forall b :: b in w.agents ==> !HoldsLatch(w.agents[b]);
            if free then Became(w, Run(w, Alone(a, 2)), a, w.word + LATCH, Latched) else Became(w, Run(w, Alone(a, 2)), a, w.word, WriteStart)
  {
    var writer :| InvWith(w, writer);
    WordBits(|Readers(w)|, writer.Some?, writer.Some? && HoldsLock(PhaseOf(w, writer.value)));
    TwoSteps(w, a);
    NobodyLatches(w, writer);
    assert w.agents[a := WriteLoaded(w.word)][a := Latched] == w.agents[a := Latched];
    assert w.agents[a := WriteLoaded(w.word)][a := WriteStart] == w.agents[a := WriteStart];
  }

  /** A writer past the latch has the lock two steps after it loads exactly when the last reader has left; otherwise it loads again. */
  lemma WriterLocks<V>(w: World<V>, a: Agent)
    requires Inv(w) && PhaseOf(w, a).Latched?
    ensures if Readers(w) == {} then Became(w, Run(w, Alone(a, 2)), a, LATCH + LOCK, Writing)
            else Became(w, Run(w, Alone(a, 2)), a, w.word, Latched)
  {
    var writer :| InvWith(w, writer);
    assert HoldsLatch(w.agents[a]) && writer == Some(a);
    WordBits(|Readers(w)|, true, false);
    TwoSteps(w, a);
    assert w.agents[a := LockLoaded(w.word)][a := Writing] == w.agents[a := Writing];
    assert w.agents[a := LockLoaded(w.word)][a := Latched] == w.agents[a := Latched];
  }

  /** A load that still saw readers is followed by another one. */
  lemma WriterLoadsAgain<V>(w: World<V>, a: Agent)
    requires Inv(w) && PhaseOf(w, a).LockLoaded?
    ensures var w' := Run(w, Alone(a, 1));
            if ReadersField(PhaseOf(w, a).seen) != 0 then Became(w, w', a, w.word, Latched) else Became(w, w', a, LATCH + LOCK, Writing)
  {
    var writer :| InvWith(w, writer);
    TwoSteps(w, a);
    assert AgentInv(w, w.agents[a]);
  }

  /** Dropping a write guard takes two steps and clears the word; dropping a read guard takes one and counts one reader less. */
  lemma GuardsDrop<V>(w: World<V>, a: Agent)
    requires Inv(w)
    ensures PhaseOf(w, a).Writing? ==> Became(w, Run(w, Alone(a, 2)), a, 0, Idle)
    ensures PhaseOf(w, a).Reading? ==> w.word > 0 && Became(w, Run(w, Alone(a, 1)), a, w.word - 1, Idle) && Readers(Run(w, Alone(a, 1))) == Readers(w) - {a}
  {
    var writer :| InvWith(w, writer);
    WordBits(|Readers(w)|, writer.Some?, writer.Some? && HoldsLock(PhaseOf(w, writer.value)));
    TwoSteps(w, a);
    if PhaseOf(w, a).Writing? {
      assert HoldsLatch(w.agents[a]) && writer == Some(a);
      assert w.agents[a := DropLoaded(w.word)][a := Idle] == w.agents[a := Idle];
    }
    if PhaseOf(w, a).Reading? {
      assert a in Readers(w);
      assert w.word >= 1;
    }
  }

  /** An idle agent can call either operation. */
  lemma Called<V>(w: World<V>, a: Agent)
    requires PhaseOf(w, a).Idle?
    ensures Became(w, Run(w, [(a, CallWrite)]), a, w.word, WriteStart)
    ensures Became(w, Run(w, [(a, CallRead)]), a, w.word, ReadStart)
  {
    RunOne(w, a, CallWrite);
    RunOne(w, a, CallRead);
  }

  lemma QuietWord<V>(w: World<V>, a: Agent)
    requires Inv(w) && NobodyElse(w, a) && !HoldsLatch(PhaseOf(w, a)) && !PhaseOf(w, a).Reading?
    ensures w.word == 0 && Readers(w) == {} && forall b :: b in w.agents ==> !HoldsLatch(w.agents[b])
  {
    var writer :| InvWith(w, writer);
    forall b | b in w.agents ensures !HoldsLatch(w.agents[b]) && !w.agents[b].Reading? {
      assert PhaseOf(w, b) == w.agents[b];
    }
    NobodyLatches(w, writer);
    assert Readers(w) == {};
  }

  lemma StillQuiet<V>(w: World<V>, w': World<V>, a: Agent, word: nat, p: Phase)
    requires Became(w, w', a, word, p) && Readers(w) == {} && !p.Reading?
    ensures Readers(w') == {}
  {
  }

  lemma Overwritten<V>(w: World<V>, w1: World<V>, w2: World<V>, a: Agent, word1: nat, p1: Phase, word2: nat, p2: Phase)
    requires Became(w, w1, a, word1, p1) && Became(w1, w2, a, word2, p2)
    ensures Became(w, w2, a, word2, p2)
  {
    assert w.agents[a := p1][a := p2] == w.agents[a := p2];
  }

  lemma WriteAlone<V>(w: World<V>, a: Agent)
    requires Inv(w) && PhaseOf(w, a).WriteStart? && NobodyElse(w, a)
    ensures Became(w, Run(w, Alone(a, 4)), a, LATCH + LOCK, Writing) && Became(w, Run(w, Alone(a, 6)), a, 0, Idle)
  {
    var w2 := Run(w, Alone(a, 2));
    var w4 := Run(w2, Alone(a, 2));
    QuietWord(w, a);
    WriterLatches(w, a);
    RunKeeps(w, Alone(a, 2));
    StillQuiet(w, w2, a, LATCH, Latched);
    WriterLocks(w2, a);
    RunKeeps(w2, Alone(a, 2));
    GuardsDrop(w4, a);
    StepsAppend(w, a, 2, 2);
    StepsAppend(w, a, 4, 2);
    Overwritten(w, w2, w4, a, LATCH, Latched, LATCH + LOCK, Writing);
    Overwritten(w, w4, Run(w4, Alone(a, 2)), a, LATCH + LOCK, Writing, 0, Idle);
  }

  /**
   * In every reachable state in which nobody else is in, an agent in `write` that steps alone has its guard after
   * four steps, and two more give everything back.
   */
  lemma WriteAcquires<V>(value: V, acts: seq<(Agent, Action<V>)>, a: Agent)
    requires var w := Run(New(value), acts); PhaseOf(w, a).WriteStart? && NobodyElse(w, a)
    ensures var w := Run(New(value), acts);
            Became(w, Run(w, Alone(a, 4)), a, 0xC000_0000, Writing) && Became(w, Run(w, Alone(a, 6)), a, 0, Idle)
  {
    NewInv(value);
    RunKeeps(New(value), acts);
    WriteAlone(Run(New(value), acts), a);
  }

  lemma ReadAlone<V>(w: World<V>, a: Agent)
    requires Inv(w) && PhaseOf(w, a).ReadStart? && NobodyElse(w, a)
    ensures Became(w, Run(w, Alone(a, 2)), a, 1, Reading) && Became(w, Run(w, Alone(a, 3)), a, 0, Idle)
  {
    var w2 := Run(w, Alone(a, 2));
    QuietWord(w, a);
    ReaderEnters(w, a);
    RunKeeps(w, Alone(a, 2));
    StepsAppend(w, a, 2, 1);
    GuardsDrop(w2, a);
    Overwritten(w, w2, Run(w2, Alone(a, 1)), a, 1, Reading, 0, Idle);
  }

  /** Likewise an agent in `read` has its guard after two steps, and one more gives it back. */
  lemma ReadAcquires<V>(value: V, acts: seq<(Agent, Action<V>)>, a: Agent)
    requires var w := Run(New(value), acts); PhaseOf(w, a).ReadStart? && NobodyElse(w, a)
    ensures var w := Run(New(value), acts);
            Became(w, Run(w, Alone(a, 2)), a, 1, Reading) && Became(w, Run(w, Alone(a, 3)), a, 0, Idle)
  {
    NewInv(value);
    RunKeeps(New(value), acts);
    ReadAlone(Run(New(value), acts), a);
  }
}

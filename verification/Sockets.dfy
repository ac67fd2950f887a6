/**
 * The two halves of a connection. What the operating system does on its n-th call, and whether a timeout has
 * run out by then, is given by an arbitrary function of n.
 */
module Sockets {
  import opened Base
  import opened Wire
  import opened Framing
  import opened FrameRuns
  import opened Writing
  import opened Channels

  /** The answer of the operating system to one call: how many bytes it moves, whether it flushes, and whether the timeout has run out. */
  datatype Answer = Answer(event: Event, flushed: bool, late: bool)

  function Ask(os: nat -> Answer, tick: nat): Answer {
    os(tick)
  }

  /** The last answer was a reason to give the connection up. */
  predicate Trouble(os: nat -> Answer, tick: nat) {
    tick > 0 && var a := Ask(os, tick - 1); a.event == Broken || a.event == Ready(0) || !a.flushed || a.late
  }

  /** The last answer was a reason to give up reading, or there is nothing more to read. */
  predicate Ended(os: nat -> Answer, tick: nat, incoming: Bytes) {
    tick > 0 && (Hangup(Ask(os, tick - 1)) || |incoming| == 0)
  }

  predicate Hangup(a: Answer) {
    a.event == Broken || a.event == Ready(0) || a.late
  }

  /** How much there is left to do for the reader. */
  ghost function Unread(past: Reading): nat {
    if Framing.Valid(past.r) then Work(past.r, past.stream) else 0
  }

  /** A ready socket brings the reader forward. */
  predicate Onward(a: Answer, before: nat, after: nat) {
    after <= before && (a.event.Ready? && a.event.n > 0 ==> after < before)
  }

  /** The last time, the socket took less than a whole packet of this size. */
  predicate Short(os: nat -> Answer, tick: nat, max: nat) {
    tick > 0 && var a := Ask(os, tick - 1); a.event.Ready? ==> a.event.n < max
  }

  /** What a packet puts on the wire: nothing if it does not encode or exceeds the limit. */
  function Blob<P>(p: P, encode: P -> Result<Bytes>, max: nat): Bytes {
    match encode(p)
    case Ok(data) => if |data| <= max then data else []
    case Err(_) => []
  }

  function Outgoing<P>(ps: seq<P>, encode: P -> Result<Bytes>, max: nat): Bytes {
    if ps == [] then [] else Blob(ps[0], encode, max) + Outgoing(ps[1..], encode, max)
  }

  lemma {:induction false} OutgoingAppend<P>(a: seq<P>, b: seq<P>, encode: P -> Result<Bytes>, max: nat)
    ensures Outgoing(a + b, encode, max) == Outgoing(a, encode, max) + Outgoing(b, encode, max)
  {
    if a == [] {
      assert a + b == b;
    } else {
      OutgoingAppend(a[1..], b, encode, max);
      assert (a + b)[1..] == a[1..] + b && (a + b)[0] == a[0];
      Regrouped(Blob(a[0], encode, max), Outgoing(a[1..], encode, max), Outgoing(b, encode, max));
    }
  }

  predicate Split3(a: Bytes, b: Bytes, c: Bytes, all: Bytes) {
    a + b + c == all
  }

  lemma Split3Facts(a: Bytes, b: Bytes, c: Bytes, all: Bytes)
    requires Split3(a, b, c, all)
    ensures a <= all
    ensures b == [] && c == [] ==> a == all
  {
  }

  predicate IsSuffix<T(==)>(a: seq<T>, b: seq<T>) {
    |a| <= |b| && a == b[|b| - |a|..]
  }

  lemma SuffixTail<T>(a: seq<T>, b: seq<T>)
    requires IsSuffix(a, b) && a != []
    ensures IsSuffix(a[1..], b)
  {
  }

  lemma PrefixesNest(a: Bytes, b: Bytes, all: Bytes)
    requires a <= all && b <= all && |a| <= |b|
    ensures a <= b
  {
  }

  /** The next packet moves from the queue to the writer. */
  lemma NextOut<P>(wire: Bytes, todo: seq<P>, encode: P -> Result<Bytes>, max: nat, all: Bytes)
    requires todo != [] && Split3(wire, [], Outgoing(todo, encode, max), all)
    ensures Split3(wire, Blob(todo[0], encode, max), Outgoing(todo[1..], encode, max), all)
  {
  }

  /** Writing side: packets wait in a queue, one at a time is in the writer. */
  class Sink<P> {
    const encode: P -> Result<Bytes>
    const max: nat
    const os: nat -> Answer
    var tick: nat
    var pw: Writer
    var packets: seq<P>
    var wire: Bytes
    ghost var accepted: seq<P>

    /** While the connection is up, the wire, the rest of the current packet and the queue make up everything accepted. */
    ghost predicate Valid()
      reads this
    {
      && ValidWriter(pw) && !pw.NoWriter? && pw.max == max
      && wire + Unsent(pw) + Outgoing(packets, encode, max) == Outgoing(accepted, encode, max)
    }

    constructor (encode: P -> Result<Bytes>, max: nat, os: nat -> Answer)
      ensures Valid() && this.encode == encode && this.max == max && this.os == os && tick == 0 && accepted == [] && wire == []
    {
      this.encode := encode;
      this.max := max;
      this.os := os;
      tick := 0;
      pw := ToWrite([], max);
      packets := [];
      wire := [];
      accepted := [];
    }

    method Accept(ps: seq<P>)
      requires Valid()
      modifies this`packets, this`accepted
      ensures Valid() && packets == old(packets) + ps && accepted == old(accepted) + ps
    {
      packets := packets + ps;
      accepted := accepted + ps;
      OutgoingAppend(old(packets), ps, encode, max);
      OutgoingAppend(old(accepted), ps, encode, max);
      Regrouped(wire + Unsent(pw), Outgoing(old(packets), encode, max), Outgoing(ps, encode, max));
    }

    /** `write_packet`: one call of the writer. */
    method WritePacket() returns (status: Status)
      requires ValidWriter(pw) && !pw.NoWriter?
      modifies this`pw, this`wire, this`tick
      ensures ValidWriter(pw) && tick == old(tick) + 1
      ensures pw.NoWriter? ==> status == Gone && wire == old(wire)
      ensures !pw.NoWriter? ==> pw.max == old(pw.max) && wire + Unsent(pw) == old(wire + Unsent(pw))
      ensures status == Done <==> pw.Written?
      ensures status == Block ==> pw.Partly? && Short(os, tick, pw.max)
      ensures status == Gone ==> Trouble(os, tick)
      ensures status != Gone && Ask(os, old(tick)).event.Ready? ==> |wire| - |old(wire)| == Min(Ask(os, old(tick)).event.n, |old(Unsent(pw))|)
      ensures |old(wire)| <= |wire|
    {
      var answer := Ask(os, tick);
      tick := tick + 1;
      WriteMoves(pw, answer.event);
      var r := Write(pw, answer.event);
      if r.Err? {
        pw := NoWriter;
        return Gone;
      }
      WriteConserves(pw, answer.event);
      var (w, _, sent) := r.value;
      Regrouped(wire, sent, Unsent(w));
      wire := wire + sent;
      pw := w;
      if pw.Written? {
        return Done;
      }
      return if answer.late then Gone else Block;
    }

    /** The next packet moves into the writer if it encodes, behind a flush of the socket. */
    method Load(p: P) returns (ok: bool)
      requires ValidWriter(pw) && pw.Written?
      modifies this`pw, this`tick
      ensures ValidWriter(pw) && !pw.NoWriter? && pw.max == old(pw.max) && tick >= old(tick)
      ensures if ok then Unsent(pw) == Blob(p, encode, pw.max) else pw == old(pw) && Trouble(os, tick)
    {
      var r := encode(p);
      if r.Err? {
        return true;
      }
      var answer := Ask(os, tick);
      tick := tick + 1;
      if answer.flushed {
        pw := Rewrite(pw, r.value);
      }
      return answer.flushed;
    }

    /** `flush_packets`: everything queued, until the socket blocks or fails. */
    method FlushPackets() returns (status: Status)
      requires Valid()
      modifies this`pw, this`wire, this`packets, this`tick
      ensures status != Gone ==> Valid()
      ensures status == Done ==> packets == [] && wire == Outgoing(accepted, encode, max)
      ensures tick > old(tick) && (status == Gone ==> Trouble(os, tick))
      ensures status == Block ==> pw.Partly? && Short(os, tick, max)
      ensures old(wire) <= wire <= Outgoing(accepted, encode, max)
      ensures IsSuffix(packets, old(packets))
    {
      var todo := packets;
      ghost var all := Outgoing(accepted, encode, max);
      Split3Facts(wire, Unsent(pw), Outgoing(todo, encode, max), all);
      while true
        invariant IsSuffix(todo, old(packets))
        invariant ValidWriter(pw) && !pw.NoWriter? && pw.max == max && tick >= old(tick)
        invariant Split3(wire, Unsent(pw), Outgoing(todo, encode, max), all) && wire <= all && |old(wire)| <= |wire|
        decreases |todo|
      {
        status := WritePacket();
        if !pw.NoWriter? {
          Split3Facts(wire, Unsent(pw), Outgoing(todo, encode, max), all);
        }
        if status != Done || todo == [] {
          break;
        }
        NextOut(wire, todo, encode, max, all);
        SuffixTail(todo, old(packets));
        var ok := Load(todo[0]);
        todo := todo[1..];
        if !ok {
          status := Gone;
          break;
        }
      }
      PrefixesNest(old(wire), wire, all);
      packets := todo;
    }

    /** `write_packets`: alternate flushing and receiving until one of them blocks. */
    method WritePackets(rx: Channel<P>, batch: nat) returns (status: Status)
      requires Valid() && rx.Valid()
      modifies this`pw, this`wire, this`packets, this`accepted, this`tick, rx
      ensures rx.Valid() && accepted + rx.contents == old(accepted) + old(rx.contents)
      ensures tick > old(tick) && (status == Gone ==> Trouble(os, tick) || !rx.connected)
      ensures status != Gone ==> Valid()
      ensures status == Done ==> packets == [] && rx.contents == [] && wire == Outgoing(old(accepted) + old(rx.contents), encode, max)
      ensures status == Block ==> pw.Partly? && Short(os, tick, max)
    {
      while true
        invariant Valid() && rx.Valid() && tick >= old(tick)
        invariant accepted + rx.contents == old(accepted) + old(rx.contents)
        decreases |rx.contents|
      {
        status := FlushPackets();
        if status != Done {
          return;
        }
        var received: seq<P>;
        status, received := rx.TryRecvs(batch);
        Regrouped(accepted, received, rx.contents);
        Accept(received);
        match status
        case Done =>
        case Block =>
          assert accepted == accepted + rx.contents;
          status := FlushPackets();
          return;
        case Gone =>
          return;
      }
    }
  }

  /** Reading side: packets wait in a queue for the session's channel. */
  class Source<P> {
    const parse: Bytes -> Result<P>
    const max: nat
    const os: nat -> Answer
    var tick: nat
    var pr: Reader
    var packets: seq<P>
    var incoming: Bytes
    var live: bool
    ghost var stream: Bytes
    ghost var past: Reading
    ghost var sent: seq<P>

    /** The packets sent on and queued are what the first frames of the stream parse to. */
    ghost predicate Valid()
      reads this
    {
      && Standing(stream, past, sent + packets, parse, max)
      && (live ==> Follows(past, pr, incoming))
    }

    constructor (parse: Bytes -> Result<P>, max: nat, os: nat -> Answer, stream: Bytes)
      ensures Valid() && live && this.parse == parse && this.max == max && this.os == os && tick == 0 && this.stream == stream && sent == []
    {
      this.parse := parse;
      this.max := max;
      this.os := os;
      tick := 0;
      pr := Init([], max);
      packets := [];
      incoming := stream;
      live := true;
      this.stream := stream;
      past := Reading([], Init([], max), stream, None);
      sent := [];
      NothingRead(stream, max);
    }

    /** `send_upstream`: queued packets, as many as the channel takes. */
    method SendUpstream(tx: Channel<P>) returns (status: Status, ghost moved: seq<P>)
      requires Valid() && tx.Valid()
      modifies this`packets, this`sent, tx
      ensures Valid() && tx.Valid()
      ensures moved + packets == old(packets)
      ensures sent == old(sent) + moved && tx.contents == old(tx.contents) + moved
      ensures status == Done <==> packets == []
      ensures tx.connected == old(tx.connected) && (status == Gone ==> !tx.connected)
      ensures status != Done ==> !tx.connected || |tx.contents| == tx.capacity
    {
      var left: seq<P>;
      status, left := tx.TrySends(packets);
      moved := packets[..|packets| - |left|];
      Moved(old(tx.contents), packets, tx.contents, left);
      Regrouped(sent, moved, left);
      sent := sent + moved;
      packets := left;
    }

    /** `read_packet`: one call of the reader; a finished packet is parsed and queued. */
    method ReadPacket() returns (status: Result<Status>)
      requires Valid() && live
      modifies this`pr, this`packets, this`incoming, this`live, this`past, this`tick
      ensures Valid() && tick == old(tick) + 1
      ensures status == Ok(Gone) ==> Ended(os, tick, incoming)
      ensures live ==> Onward(Ask(os, old(tick)), old(Unread(past)), Unread(past))
      ensures live <==> Goes(status)
      ensures if status == Ok(Done) then old(packets) < packets && |packets| == |old(packets)| + 1 && |Left(past)| < old(|Left(past)|)
              else packets == old(packets) && past.frames == old(past).frames
      ensures status.Err? ==> Refused(stream, past.frames, max, parse, status.kind)
    {
      var answer := Ask(os, tick);
      tick := tick + 1;
      status, pr, incoming, packets, past := Take(pr, incoming, packets, answer, parse, stream, past, sent, max);
      live := Goes(status);
    }

    /** One pass of `read_packets`: send on, read, and send on again if that ends it. */
    method ReadTurn(tx: Channel<P>, batch: nat) returns (again: bool, status: Result<Status>, ghost moved: seq<P>)
      requires Valid() && live && tx.Valid()
      modifies this`pr, this`packets, this`incoming, this`live, this`past, this`sent, this`tick, tx
      ensures Valid() && tx.Valid() && tx.connected == old(tx.connected)
      ensures sent == old(sent) + moved && tx.contents == old(tx.contents) + moved
      ensures tick == old(tick) || tick == old(tick) + 1
      ensures if tick == old(tick) then live && !again && past == old(past) && Stuck(packets, tx.contents, tx.capacity, tx.connected)
              else live ==> Onward(Ask(os, old(tick)), old(Unread(past)), Unread(past))
      ensures again ==> live && |Left(past)| < old(|Left(past)|)
      ensures !again && status == Ok(Gone) ==> !tx.connected || (tick > old(tick) && Ended(os, tick, incoming))
      ensures !again && status.Err? ==> Refused(stream, past.frames, max, parse, status.kind)
    {
      again := false;
      var up: Status;
      up, moved := SendUpstream(tx);
      if up != Done {
        return false, Ok(up), moved;
      }
      status := ReadPacket();
      if status.Err? || (status == Ok(Gone) && packets == []) {
        return;
      }
      if status == Ok(Done) && |packets| < batch {
        return true, status, moved;
      }
      ghost var more: seq<P>;
      up, more := SendUpstream(tx);
      MovedOn(old(sent), old(tx.contents), moved, more);
      return false, Ok(up), moved + more;
    }

    /** `read_packets`: alternate reading and sending on until one of them blocks, or a batch is full. */
    method ReadPackets(tx: Channel<P>, batch: nat) returns (status: Result<Status>, ghost moved: seq<P>)
      requires Valid() && live && tx.Valid()
      modifies this`pr, this`packets, this`incoming, this`live, this`past, this`sent, this`tick, tx
      ensures Valid() && tx.Valid() && tick >= old(tick) && tx.connected == old(tx.connected)
      ensures sent == old(sent) + moved && tx.contents == old(tx.contents) + moved
      ensures if tick == old(tick) then Stuck(packets, tx.contents, tx.capacity, tx.connected)
              else live ==> Onward(Ask(os, old(tick)), old(Unread(past)), Unread(past))
      ensures status == Ok(Gone) ==> !tx.connected || (tick > old(tick) && Ended(os, tick, incoming))
      ensures status.Err? ==> Refused(stream, past.frames, max, parse, status.kind)
    {
      moved := [];
      status := Ok(Done);
      var again := true;
      while again
        invariant Valid() && tx.Valid() && tick >= old(tick) && tx.connected == old(tx.connected)
        invariant again ==> live
        invariant sent == old(sent) + moved && tx.contents == old(tx.contents) + moved
        invariant if tick == old(tick) then past == old(past) && (again || Stuck(packets, tx.contents, tx.capacity, tx.connected))
                  else live ==> Onward(Ask(os, old(tick)), old(Unread(past)), Unread(past))
        invariant !again && status == Ok(Gone) ==> !tx.connected || (tick > old(tick) && Ended(os, tick, incoming))
        invariant !again && status.Err? ==> Refused(stream, past.frames, max, parse, status.kind)
        decreases again, |Left(past)|
      {
        ghost var more: seq<P>;
        again, status, more := ReadTurn(tx, batch);
        MovedOn(old(sent), old(tx.contents), moved, more);
        moved := moved + more;
      }
    }
  }

  /** Packets wait for a channel that takes none. */
  predicate Stuck<T>(packets: seq<T>, contents: seq<T>, capacity: nat, connected: bool) {
    |packets| > 0 && (!connected || |contents| == capacity)
  }

  lemma MovedOn<T>(a: seq<T>, b: seq<T>, moved: seq<T>, more: seq<T>)
    ensures a + moved + more == a + (moved + more)
    ensures b + moved + more == b + (moved + more)
  {
  }

  lemma NothingRead(stream: Bytes, max: nat)
    ensures Agrees(stream, Reading([], Init([], max), stream, None), max)
  {
    var out := Reading([], Init([], max), stream, None);
    assert Left(out) == stream;
    NothingYet(out, max);
  }

  /** Why a connection is refused: the stream goes bad behind the frames so far, or the next frame does not parse. */
  ghost predicate Refused<P>(stream: Bytes, frames: seq<Bytes>, max: nat, parse: Bytes -> Result<P>, kind: ErrorKind) {
    || (kind == MalformedPacket && EndsBad(stream, frames, max))
    || (exists f :: Ahead(stream, frames, f, max) && parse(f) == Err(kind))
  }

  /** One more read of a reader that agrees with the splitter so far. */
  lemma CycleOn(stream: Bytes, past: Reading, event: Event, max: nat)
    requires Agrees(stream, past, max) && past.end.None? && !past.r.Fin?
    ensures var c := Cycle(past.r, past.stream, event);
            Agrees(stream, c.(frames := past.frames + c.frames), max) && !c.r.Fin?
  {
    CycleAgrees(past.r, past.stream, event);
    CycleSound(past.r, past.stream, event);
    AgreesThrough(stream, past, Cycle(past.r, past.stream, event), max);
  }

  lemma CycleShrinks(past: Reading, event: Event)
    requires Framing.Valid(past.r) && Cycle(past.r, past.stream, event).frames != []
    ensures var c := Cycle(past.r, past.stream, event); Framing.Valid(c.r) && |Left(c)| < |Left(past)|
  {
    CycleSound(past.r, past.stream, event);
    FrontShape(Cycle(past.r, past.stream, event).frames[0], past.r.max);
  }

  /** A frame just handed on is the next one of the splitter. */
  lemma NextFrame(stream: Bytes, out: Reading, frames: seq<Bytes>, f: Bytes, max: nat)
    requires Agrees(stream, out, max) && out.frames == frames + [f]
    ensures |frames| < |Split(stream, max).frames| && Split(stream, max).frames[|frames|] == f
  {
  }

  ghost predicate EndsBad(stream: Bytes, frames: seq<Bytes>, max: nat) {
    Split(stream, max).bad && frames == Split(stream, max).frames
  }

  /** One more read: what it hands on, or why it ends. */
  lemma ReadFacts(stream: Bytes, past: Reading, event: Event, max: nat)
    requires Agrees(stream, past, max) && past.end.None? && !past.r.Fin?
    ensures match Read(past.r, past.stream, event)
            case Err(kind) => kind == Disconnected || (kind == MalformedPacket && EndsBad(stream, past.frames, max))
            case Ok((r, _, rest)) =>
              if r.Fin? then
                var out := Reading(past.frames + [r.data], Reset(r), rest, None);
                Agrees(stream, out, max) && |Left(out)| < |Left(past)| && Ahead(stream, past.frames, r.data, max)
              else Agrees(stream, Reading(past.frames, r, rest, None), max)
  {
    CycleOn(stream, past, event, max);
    var c := Cycle(past.r, past.stream, event);
    if c.frames == [] {
      assert past.frames + c.frames == past.frames;
    } else {
      CycleShrinks(past, event);
      NextFrame(stream, c.(frames := past.frames + c.frames), past.frames, c.frames[0], max);
    }
  }

  /** The reader got on with the stream. */
  ghost predicate Gained(past: Reading, r: Reader, rest: Bytes, event: Event) {
    var out := Reading([], if r.Fin? then Reset(r) else r, rest, None);
    Onward(Answer(event, true, false), Unread(past), Unread(out))
  }

  lemma ReadAdvances(past: Reading, event: Event)
    requires Framing.Valid(past.r) && !past.r.Fin?
    ensures match Read(past.r, past.stream, event)
            case Err(kind) => kind == Disconnected ==> event == Broken || event == Ready(0) || past.stream == []
            case Ok((r, _, rest)) => Gained(past, r, rest, event)
  {
    CycleSound(past.r, past.stream, event);
    if event != Broken && event != Ready(0) {
      CycleProgress(past.r, past.stream, event);
    }
  }

  /** `read` on a socket. */
  method ReadOnce(pr: Reader, incoming: Bytes, event: Event, ghost stream: Bytes, ghost past: Reading, ghost max: nat) returns (r: Result<(Reader, bool, Bytes)>)
    requires Agrees(stream, past, max) && Follows(past, pr, incoming)
    ensures match r
            case Err(kind) =>
              if kind == Disconnected then event == Broken || event == Ready(0) || incoming == []
              else kind == MalformedPacket && EndsBad(stream, past.frames, max)
            case Ok((pr', _, rest)) =>
              if pr'.Fin? then
                var out := Reading(past.frames + [pr'.data], Reset(pr'), rest, None);
                Agrees(stream, out, max) && |Left(out)| < |Left(past)| && Ahead(stream, past.frames, pr'.data, max)
              else Agrees(stream, Reading(past.frames, pr', rest, None), max)
    ensures r.Ok? ==> Gained(past, r.value.0, r.value.2, event)
  {
    ReadFacts(stream, past, event, max);
    ReadAdvances(past, event);
    r := Read(pr, incoming, event);
  }

  /** `read_packet`, on values: what it leaves of the reader, the stream and the queue. */
  method Take<P>(pr: Reader, incoming: Bytes, packets: seq<P>, answer: Answer, parse: Bytes -> Result<P>,
                 ghost stream: Bytes, ghost past: Reading, ghost sent: seq<P>, ghost max: nat)
    returns (status: Result<Status>, pr': Reader, incoming': Bytes, packets': seq<P>, ghost past': Reading)
    requires Standing(stream, past, sent + packets, parse, max) && Follows(past, pr, incoming)
    ensures Standing(stream, past', sent + packets', parse, max)
    ensures Goes(status) ==> Follows(past', pr', incoming') && Onward(answer, Unread(past), Unread(past'))
    ensures status == Ok(Gone) ==> Hangup(answer) || |incoming'| == 0
    ensures if status == Ok(Done) then packets < packets' && |packets'| == |packets| + 1 && |Left(past')| < |Left(past)|
            else packets' == packets && past'.frames == past.frames
    ensures status.Err? ==> Refused(stream, past.frames, max, parse, status.kind)
  {
    pr', incoming', packets', past' := pr, incoming, packets, past;
    var r := ReadOnce(pr, incoming, answer.event, stream, past, max);
    if r.Err? {
      return if r.kind == Disconnected then Ok(Gone) else Err(r.kind), pr', incoming', packets', past';
    }
    var (reader, _, rest) := r.value;
    if !reader.Fin? {
      return Ok(if answer.late then Gone else Block), reader, rest, packets, Reading(past.frames, reader, rest, None);
    }
    var p := parse(reader.data);
    if p.Err? {
      return Err(p.kind), pr', incoming', packets', past';
    }
    ParsedMore(past.frames, sent, packets, parse, reader.data, p.value);
    return Ok(Done), Reset(reader), rest, packets + [p.value], Reading(past.frames + [reader.data], Reset(reader), rest, None);
  }

  /** The reader and the rest of the stream are where the reading so far has left them. */
  ghost predicate Follows(past: Reading, pr: Reader, incoming: Bytes) {
    past == Reading(past.frames, pr, incoming, None) && !pr.Fin?
  }

  /** The connection stays up. */
  predicate Goes(status: Result<Status>) {
    status == Ok(Done) || status == Ok(Block)
  }

  /** The reader agrees with the splitter, and the packets are what the frames parse to. */
  ghost predicate Standing<P>(stream: Bytes, past: Reading, ps: seq<P>, parse: Bytes -> Result<P>, max: nat) {
    ParsedAs(past.frames, ps, parse) && Agrees(stream, past, max)
  }

  ghost predicate Ahead(stream: Bytes, frames: seq<Bytes>, f: Bytes, max: nat) {
    |frames| < |Split(stream, max).frames| && Split(stream, max).frames[|frames|] == f
  }

  lemma ParsedMore<P>(frames: seq<Bytes>, sent: seq<P>, packets: seq<P>, parse: Bytes -> Result<P>, f: Bytes, p: P)
    requires ParsedAs(frames, sent + packets, parse) && parse(f) == Ok(p)
    ensures ParsedAs(frames + [f], sent + (packets + [p]), parse)
  {
    Regrouped(sent, packets, [p]);
  }

  /** One packet for each frame, and the one it parses to. */
  ghost predicate ParsedAs<P>(frames: seq<Bytes>, ps: seq<P>, parse: Bytes -> Result<P>) {
    |ps| == |frames| && forall i :: 0 <= i < |ps| ==> parse(frames[i]) == Ok(ps[i])
  }

  lemma Moved<T>(contents: seq<T>, items: seq<T>, contents': seq<T>, left: seq<T>)
    requires contents' + left == contents + items && |left| <= |items|
    ensures items == items[..|items| - |left|] + left
    ensures contents' == contents + items[..|items| - |left|]
  {
    var k := |items| - |left|;
    assert (contents + items)[..|contents| + k] == contents + items[..k];
    assert (contents + items)[|contents| + k..] == items[k..];
    assert (contents' + left)[..|contents'|] == contents' && (contents' + left)[|contents'|..] == left;
  }
}

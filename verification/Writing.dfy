/** The resumable writer of one packet. */
module Writing {
  import opened Base
  import opened Wire
  import opened Framing

  /** `MQTTWrite`; `NoWriter` is the placeholder that a failed write leaves behind. */
  datatype Writer =
    | ToWrite(data: Bytes, max: nat)
    | Partly(data: Bytes, start: nat, max: nat)
    | Written(data: Bytes, max: nat)
    | NoWriter

  predicate ValidWriter(w: Writer) {
    match w
    case Partly(data, start, max) => start < |data| <= max
    case _ => true
  }

  /** What the writer still owes the socket; a packet beyond the limit is dropped, not sent. */
  function Unsent(w: Writer): Bytes
    requires ValidWriter(w)
  {
    match w
    case ToWrite(data, max) => if |data| > max then [] else data
    case Partly(data, start, _) => data[start..]
    case _ => []
  }

  /** `MQTTWrite::write`: the next state, whether it would block, and the bytes that went out. */
  function Write(w: Writer, event: Event): Result<(Writer, bool, Bytes)>
    requires ValidWriter(w) && !w.NoWriter?
  {
    match w
    case Written(_, _) => Ok((w, false, []))
    case ToWrite(data, max) =>
      if |data| > max || data == [] then Ok((Written(data, max), false, [])) else WriteFrom(data, 0, max, event)
    case Partly(data, start, max) => WriteFrom(data, start, max, event)
  }

  function WriteFrom(data: Bytes, start: nat, max: nat, event: Event): Result<(Writer, bool, Bytes)>
    requires start < |data|
  {
    match event
    case Interrupted => Ok((Partly(data, start, max), false, []))
    case WouldBlock => Ok((Partly(data, start, max), true, []))
    case Broken => Err(Disconnected)
    case Ready(n) =>
      var k := Min(n, |data| - start);
      if k == 0 then Err(Disconnected)
      else if start + k == |data| then Ok((Written(data, max), false, data[start..]))
      else Ok((Partly(data, start + k, max), false, data[start..start + k]))
  }

  /** `MQTTWrite::reset`, which must not be called in the middle of a packet. */
  function Rewrite(w: Writer, data: Bytes): Writer
    requires w.ToWrite? || w.Written?
  {
    ToWrite(data, w.max)
  }

  /** A write moves bytes from what is owed to the wire and changes nothing else. */
  lemma WriteConserves(w: Writer, event: Event)
    requires ValidWriter(w) && !w.NoWriter? && Write(w, event).Ok?
    ensures var (w', _, sent) := Write(w, event).value;
            && ValidWriter(w') && !w'.NoWriter? && !w'.ToWrite? && w'.max == w.max
            && sent + Unsent(w') == Unsent(w)
            && (w'.Written? <==> Unsent(w') == [])
  {
    if w.Partly? && event.Ready? {
      var k := Min(event.n, |w.data| - w.start);
      assert w.data[w.start..] == w.data[w.start..w.start + k] + w.data[w.start + k..];
    }
  }

  /**
   * Exactly what a write does with something to send: a ready socket takes as much as it can, an interruption or a
   * full socket takes nothing, and a broken or closed one ends the connection. With nothing to send it is finished at once.
   */
  lemma WriteMoves(w: Writer, event: Event)
    requires ValidWriter(w) && !w.NoWriter?
    ensures Unsent(w) == [] ==> Write(w, event).Ok? && Write(w, event).value.2 == [] && Write(w, event).value.0.Written?
    ensures Unsent(w) != [] ==>
              match event
              case Ready(n) =>
                if n == 0 then Write(w, event) == Err(Disconnected)
                else
                  && Write(w, event).Ok? && !Write(w, event).value.1
                  && Write(w, event).value.2 == Unsent(w)[..Min(n, |Unsent(w)|)]
                  && (Write(w, event).value.0.Written? <==> n >= |Unsent(w)|)
              case Broken => Write(w, event) == Err(Disconnected)
              case _ =>
                Write(w, event).Ok? && Write(w, event).value.2 == [] && !Write(w, event).value.0.Written? && Write(w, event).value.1 == event.WouldBlock?
  {
    if w.Partly? && event.Ready? {
      var k := Min(event.n, |w.data| - w.start);
      assert w.data[w.start..][..k] == w.data[w.start..w.start + k];
    } else if w.ToWrite? {
      assert w.data[0..] == w.data;
    }
  }
}

/** What is on a wire between two nodes: packets and time codes, and what the next poll takes from there. */
module Wires {
  import opened Bytes
  import opened Packets
  import opened PacketBuilding
  import opened RoundTrip
  import opened Framing
  import opened Sending

  datatype Item = Tick(code: byte) | Message(config: Config)

  /** Packets that survive the trip and fit a frame. */
  predicate Carried(c: Config) {
    WellFormed(c) && TotalSize(c) < 0x1_0000_0000_0000_0000
  }

  predicate Fit(x: Item) {
    x.Message? ==> Carried(x.config)
  }

  predicate Sound(q: seq<Item>) {
    forall i :: 0 <= i < |q| ==> Fit(q[i])
  }

  function OnWire(x: Item): seq<byte>
    requires Fit(x)
  {
    if x.Tick? then Render(Time(TIME_CODE, x.code)) else Framed(x.config)
  }

  function Wire(q: seq<Item>): seq<byte>
    requires Sound(q)
  {
    if q == [] then [] else OnWire(q[0]) + Wire(q[1..])
  }

  function MessageOf(x: Item): seq<Config> {
    if x.Tick? then [] else [x.config]
  }

  function Messages(q: seq<Item>): seq<Config> {
    if q == [] then [] else MessageOf(q[0]) + Messages(q[1..])
  }

  lemma {:induction false} WireAppend(q: seq<Item>, x: Item)
    requires Sound(q) && Fit(x)
    ensures Sound(q + [x]) && Wire(q + [x]) == Wire(q) + OnWire(x)
    decreases |q|
  {
    var more := q + [x];
    if q == [] {
      assert more == [x] && more[1..] == [];
      assert OnWire(x) + Wire([]) == OnWire(x) && [] + OnWire(x) == OnWire(x);
    } else {
      WireAppend(q[1..], x);
      assert more[1..] == q[1..] + [x];
      Assoc(OnWire(q[0]), Wire(q[1..]), OnWire(x));
    }
  }

  lemma {:induction false} MessagesAppend(q: seq<Item>, x: Item)
    ensures Messages(q + [x]) == Messages(q) + MessageOf(x)
    decreases |q|
  {
    var more := q + [x];
    if q == [] {
      assert more == [x] && more[1..] == [];
    } else {
      MessagesAppend(q[1..], x);
      assert more[1..] == q[1..] + [x];
      var a, b, c := MessageOf(q[0]), Messages(q[1..]), MessageOf(x);
      assert a + (b + c) == (a + b) + c;
    }
  }

  lemma WireSend(q: seq<Item>, c: Config)
    requires Sound(q) && Carried(c)
    ensures var more := q + [Message(c)];
            Sound(more) && Wire(more) == Wire(q) + Framed(c) && Messages(more) == Messages(q) + [c]
  {
    WireAppend(q, Message(c));
    MessagesAppend(q, Message(c));
  }

  lemma WireTick(q: seq<Item>, code: byte)
    requires Sound(q)
    ensures var more := q + [Tick(code)];
            Sound(more) && Wire(more) == Wire(q) + Render(Time(TIME_CODE, code)) && Messages(more) == Messages(q)
  {
    WireAppend(q, Tick(code));
    MessagesAppend(q, Tick(code));
  }

  /** What the next poll takes from a wire: nothing if there is no message on it, otherwise exactly the first message
      and the time codes before it. */
  lemma {:induction false} PollWire(capacity: nat, q: seq<Item>) returns (rest: seq<Item>)
    requires Sound(q)
    ensures
      var out := Decode(AutoResize, capacity, Wire(q), []);
      && Sound(rest)
      && (out.Whole? <==> Messages(q) != [])
      && (out.Whole? ==>
        && Carried(Messages(q)[0]) && out.payload == Encode(Messages(q)[0])
        && out.rest == Wire(rest) && Messages(rest) == Messages(q)[1..])
    decreases |q|
  {
    rest := [];
    if q != [] {
      if q[0].Tick? {
        var capacity' := DecodeFrame(capacity, Time(TIME_CODE, q[0].code), Wire(q[1..]), []);
        rest := PollWire(capacity', q[1..]);
        assert Messages(q) == Messages(q[1..]);
      } else {
        var c := q[0].config;
        rest := q[1..];
        FramedIsFrame(c);
        var capacity' := DecodeFrame(capacity, Data(END_OF_PACKET, 0, Encode(c)), Wire(rest), []);
        assert [] + Encode(c) == Encode(c);
        assert Messages(q) == [c] + Messages(rest);
      }
    }
  }
}

/** The window's event stream: the records it sends, and the decoder that takes them apart however
    the bytes are split into reads. */
module Wire {
  import opened Words

  datatype Event =
    | Char(code: byte)
    | Key(usage: byte, down: bool)
    | Mouse(x: int, y: int, buttons: byte)
    | Wheel(clicks: int)

  function SignedWord(hi: byte, lo: byte): int {
    var h: int, l: int := hi, lo;
    if h >= 0x80 then 0x100 * h + l - 0x1_0000 else 0x100 * h + l
  }

  // ---- the decoder ----

  const MARK := 0xFF
  const KEY := 0x4B   // 'K'
  const MOUSE := 0x4D // 'M'
  const WHEEL := 0x57 // 'W'

  /** The length of a record by its second byte; one of an unknown kind is those two bytes. */
  function RecordLength(kind: byte): (n: nat)
    ensures 2 <= n <= 7
  {
    if kind == KEY then 4 else if kind == MOUSE then 7 else if kind == WHEEL then 3 else 2
  }

  /** Whether the first record, or character, is all there. */
  predicate Complete(g: Bytes) {
    g != [] && (g[0] != MARK || (|g| >= 2 && |g| >= RecordLength(g[1])))
  }

  function FirstLength(g: Bytes): (n: nat)
    requires Complete(g)
    ensures 0 < n <= |g|
  {
    if g[0] != MARK then 1 else RecordLength(g[1])
  }

  /** What the first record says: nothing if it is of an unknown kind. */
  function FirstEvent(g: Bytes): seq<Event>
    requires Complete(g)
  {
    if g[0] != MARK then [Char(g[0])]
    else if g[1] == KEY then [Key(g[2], g[3] != 0)]
    else if g[1] == MOUSE then [Mouse(SignedWord(g[2], g[3]), SignedWord(g[4], g[5]), g[6])]
    else if g[1] == WHEEL then [Wheel(SignedByte(g[2]))]
    else []
  }

  /** The events of some bytes. */
  function Events(g: Bytes): seq<Event>
    decreases |g|
  {
    if Complete(g) then FirstEvent(g) + Events(g[FirstLength(g)..]) else []
  }

  /** The bytes left over. */
  function Rest(g: Bytes): (r: Bytes)
    ensures !Complete(r) && |r| <= |g|
    decreases |g|
  {
    if Complete(g) then Rest(g[FirstLength(g)..]) else g
  }

  /** The events before byte i, and what is still to come. */
  ghost predicate DecodedTo(g: Bytes, i: nat, taken: seq<Event>)
    requires i <= |g|
  {
    taken + Events(g[i..]) == Events(g) && Rest(g[i..]) == Rest(g)
  }

  lemma DecodeBegins(g: Bytes)
    ensures DecodedTo(g, 0, [])
  {
    assert g[0..] == g;
  }

  lemma DecodeStep(g: Bytes, i: nat, taken: seq<Event>)
    requires i <= |g| && DecodedTo(g, i, taken) && Complete(g[i..])
    ensures DecodedTo(g, i + FirstLength(g[i..]), taken + FirstEvent(g[i..]))
  {
    var n := i + FirstLength(g[i..]);
    assert g[i..][FirstLength(g[i..])..] == g[n..];
    Associate(taken, FirstEvent(g[i..]), Events(g[n..]));
  }

  lemma DecodeEnds(g: Bytes, i: nat, taken: seq<Event>)
    requires i <= |g| && DecodedTo(g, i, taken) && !Complete(g[i..])
    ensures taken == Events(g) && g[i..] == Rest(g)
  {
    assert taken + [] == taken;
  }

  lemma Associate<T>(a: seq<T>, b: seq<T>, c: seq<T>)
    ensures a + (b + c) == a + b + c
  {
  }

  /** The first record of some bytes, if it is all there. */
  method Record(r: Bytes) returns (length: nat, events: seq<Event>)
    requires r != []
    ensures if Complete(r) then length == FirstLength(r) && events == FirstEvent(r) else length == 0
  {
    length, events := 0, [];
    if r[0] != MARK {
      return 1, [Char(r[0])];
    }
    if |r| < 2 {
      return;
    }
    var len := RecordLength(r[1]);
    if |r| < len {
      return;
    }
    length := len;
    if r[1] == KEY {
      events := [Key(r[2], r[3] != 0)];
    } else if r[1] == MOUSE {
      events := [Mouse(SignedWord(r[2], r[3]), SignedWord(r[4], r[5]), r[6])];
    } else if r[1] == WHEEL {
      events := [Wheel(SignedByte(r[2]))];
    }
  }

  /** One record, or nothing if it is not all there. */
  method DecodeOne(g: Bytes, i: nat, taken: seq<Event>) returns (more: bool, i': nat, taken': seq<Event>)
    requires i < |g| && DecodedTo(g, i, taken)
    ensures if more then i < i' <= |g| && DecodedTo(g, i', taken')
            else i' == i && taken' == taken && !Complete(g[i..])
  {
    var length, events := Record(g[i..]);
    more := length != 0;
    if more {
      DecodeStep(g, i, taken);
    }
    i', taken' := i + length, if more then taken + events else taken;
  }

  /** The loop of the decoder: the events of some bytes, and how many bytes those took. */
  method Decode(g: Bytes) returns (taken: seq<Event>, i: nat)
    ensures taken == Events(g) && i <= |g| && g[i..] == Rest(g)
  {
    i, taken := 0, [];
    DecodeBegins(g);
    while i < |g|
      invariant 0 <= i <= |g| && DecodedTo(g, i, taken)
    {
      var more;
      more, i, taken := DecodeOne(g, i, taken);
      if !more {
        break;
      }
    }
    DecodeEnds(g, i, taken);
  }

  /** Two bytes, the first the higher, as two's complement. */
  function Pair(hi: byte, lo: byte): int {
    if hi < 0x80 then 0x100 * hi as int + lo else 0x100 * hi as int + lo - 0x1_0000
  }

  lemma OneRecord(g: Bytes, more: Bytes)
    ensures Complete(g) && FirstLength(g) == |g| ==> Events(g + more) == FirstEvent(g) + Events(more)
  {
    if Complete(g) && FirstLength(g) == |g| {
      assert (g + more)[|g|..] == more;
    }
  }

  lemma KeyRecord(usage: byte, down: byte, more: Bytes)
    ensures Events([0xFF, 0x4B, usage, down] + more) == [Key(usage, down != 0)] + Events(more)
  {
    OneRecord([0xFF, 0x4B, usage, down], more);
  }

  lemma MouseRecord(a: byte, b: byte, c: byte, d: byte, e: byte, more: Bytes)
    ensures Events([0xFF, 0x4D, a, b, c, d, e] + more) == [Mouse(Pair(a, b), Pair(c, d), e)] + Events(more)
  {
    OneRecord([0xFF, 0x4D, a, b, c, d, e], more);
  }

  /** The records: any byte but $FF is a character; $FF and K, M or W begin a key, the mouse or the wheel,
      and $FF and any other byte are passed over. */
  lemma RecordsAre(a: byte, b: byte, c: byte, d: byte, e: byte, more: Bytes)
    ensures a != 0xFF ==> Events([a] + more) == [Char(a)] + Events(more)
    ensures Events([0xFF, 0x4B, a, b] + more) == [Key(a, b != 0)] + Events(more)
    ensures Events([0xFF, 0x4D, a, b, c, d, e] + more) == [Mouse(Pair(a, b), Pair(c, d), e)] + Events(more)
    ensures Events([0xFF, 0x57, a] + more) == [Wheel(if a < 0x80 then a else a - 0x100)] + Events(more)
    ensures a != 0x4B && a != 0x4D && a != 0x57 ==> Events([0xFF, a] + more) == Events(more)
  {
    KeyRecord(a, b, more);
    MouseRecord(a, b, c, d, e, more);
    OneRecord([a], more);
    OneRecord([0xFF, 0x57, a], more);
    OneRecord([0xFF, a], more);
    assert [] + Events(more) == Events(more);
  }

  /** What a read of the pipe gives: some bytes, nothing yet, or its end, the window having been closed. */
  datatype Reading = Got(buf: Bytes) | NothingYet | Closed

  /** The emulator's end: what it has got of a record, events not taken yet, and whether the pipe is open. */
  class VideoOut {
    var got: Bytes
    var input: seq<Event>
    var open: bool

    constructor ()
      ensures got == [] && input == [] && open
    {
      got, input, open := [], [], true;
    }

    /** Some bytes from the window. */
    method Receive(buf: Bytes)
      modifies this`got, this`input
      ensures input == old(input) + Events(old(got) + buf) && got == Rest(old(got) + buf)
    {
      var g := got + buf;
      var events, i := Decode(g);
      input := input + events;
      got := g[i..];
    }

    /** The next event, if there is one. The pipe is read only when none is waiting: `reading` is what
        that would give then. */
    method Poll(reading: Reading) returns (read: bool, next: seq<Event>)
      modifies this
      ensures read <==> old(input) == [] && old(open)
      ensures open <==> old(open) && !(read && reading == Closed)
      ensures var g := if read && reading.Got? then old(got) + reading.buf else old(got);
              var waiting := if read && reading.Got? then Events(g) else old(input);
              && got == (if read && reading.Got? then Rest(g) else g)
              && next + input == waiting && |next| == (if waiting == [] then 0 else 1)
    {
      read := input == [] && open;
      if read {
        match reading {
          case Got(buf) => Receive(buf);
          case NothingYet =>
          case Closed => open := false;
        }
      }
      next := TakeFirst();
    }

    method TakeFirst() returns (next: seq<Event>)
      modifies this`input
      ensures next + input == old(input) && |next| == (if old(input) == [] then 0 else 1)
    {
      if input == [] {
        next := [];
      } else {
        next, input := input[..1], input[1..];
      }
    }
  }

  // ---- reads ----

  /** The events of a stream that comes in chunks, after some bytes left over. */
  function FedEvents(left: Bytes, chunks: seq<Bytes>): seq<Event>
    decreases |chunks|
  {
    if chunks == [] then [] else Events(left + chunks[0]) + FedEvents(Rest(left + chunks[0]), chunks[1..])
  }

  function FedRest(left: Bytes, chunks: seq<Bytes>): Bytes
    decreases |chunks|
  {
    if chunks == [] then left else FedRest(Rest(left + chunks[0]), chunks[1..])
  }

  function Joined(chunks: seq<Bytes>): Bytes {
    if chunks == [] then [] else chunks[0] + Joined(chunks[1..])
  }

  /** Decoding what was left over together with more bytes is decoding all of them at once. */
  lemma {:induction false} ParsedOn(g: Bytes, more: Bytes)
    ensures Events(g + more) == Events(g) + Events(Rest(g) + more) && Rest(g + more) == Rest(Rest(g) + more)
    decreases |g|
  {
    if Complete(g) {
      var n := FirstLength(g);
      assert Complete(g + more) && FirstLength(g + more) == n && FirstEvent(g + more) == FirstEvent(g);
      assert (g + more)[n..] == g[n..] + more;
      ParsedOn(g[n..], more);
      Associate(FirstEvent(g), Events(g[n..]), Events(Rest(g) + more));
    }
  }

  /** However a stream is split into reads, the same events come out, and the same bytes are left: of
      a record that is not all there yet. */
  lemma {:induction false} SplitDoesNotMatter(left: Bytes, chunks: seq<Bytes>)
    requires !Complete(left)
    ensures FedEvents(left, chunks) == Events(left + Joined(chunks))
            && FedRest(left, chunks) == Rest(left + Joined(chunks))
    decreases |chunks|
  {
    if chunks == [] {
      assert left + Joined(chunks) == left;
    } else {
      var g, more := left + chunks[0], Joined(chunks[1..]);
      assert left + Joined(chunks) == g + more;
      SplitDoesNotMatter(Rest(g), chunks[1..]);
      ParsedOn(g, more);
    }
  }

  /** What some readings bring, up to the end of the pipe. */
  function Brought(readings: seq<Reading>): Bytes {
    if readings == [] || readings[0] == Closed then []
    else (if readings[0].Got? then readings[0].buf else []) + Brought(readings[1..])
  }

  /** Nothing is lost or made up by what is still to be read being read later. */
  ghost predicate Accounted(all: seq<Event>, rest: Bytes, taken: seq<Event>, input: seq<Event>, got: Bytes,
                            more: Bytes)
  {
    taken + input + Events(got + more) == all && Rest(got + more) == rest && !Complete(got)
  }

  lemma {:induction false} AccountedOn(all: seq<Event>, rest: Bytes, taken: seq<Event>, got: Bytes, buf: Bytes,
                                       more: Bytes, g: Bytes)
    requires Accounted(all, rest, taken, [], got, buf + more) && g == got + buf
    ensures Accounted(all, rest, taken, Events(g), Rest(g), more)
  {
    assert got + (buf + more) == g + more;
    assert taken + [] == taken;
    ParsedOn(g, more);
    Associate(taken, Events(g), Events(Rest(g) + more));
  }

  lemma {:induction false} HandedOut(all: seq<Event>, rest: Bytes, taken: seq<Event>, next: seq<Event>,
                                     input: seq<Event>, got: Bytes, more: Bytes)
    requires Accounted(all, rest, taken, next + input, got, more)
    ensures Accounted(all, rest, taken + next, input, got, more)
  {
    assert taken + (next + input) == (taken + next) + input;
  }

  /** Polling until the readings have all been made, or the pipe has ended: the events handed out and those
      still waiting are those of the stream, in order, and what is left over is of a record not all there. */
  method PollAll(device: VideoOut, readings: seq<Reading>) returns (taken: seq<Event>)
    requires device.open && !Complete(device.got)
    modifies device
    ensures taken + device.input == old(device.input) + Events(old(device.got) + Brought(readings))
    ensures device.got == Rest(old(device.got) + Brought(readings))
    ensures device.open <==> Closed !in readings
  {
    taken := [];
    var k := 0;
    ghost var all := device.input + Events(device.got + Brought(readings));
    ghost var rest := Rest(device.got + Brought(readings));
    AccountedFirst(readings, device.input, device.got);
    while k < |readings| && device.open
      invariant k <= |readings| && OpenAfter(readings, k, device.open)
      invariant Accounted(all, rest, taken, device.input, device.got, StillToCome(readings, k, device.open))
      decreases |readings| - k, |device.input|
    {
      k, taken := PollOnce(device, readings, k, taken, all, rest);
    }
    OpenAtEnd(readings, k, device.open);
    AccountedLast(all, rest, taken, device.input, device.got);
  }

  /** The pipe is open as long as no reading has been its end. */
  predicate OpenAfter(readings: seq<Reading>, k: nat, open: bool)
    requires k <= |readings|
  {
    if open then forall j :: 0 <= j < k ==> readings[j] != Closed else Closed in readings
  }

  lemma OpenOn(readings: seq<Reading>, k: nat, read: bool)
    requires k < |readings| && OpenAfter(readings, k, true)
    ensures OpenAfter(readings, if read then k + 1 else k, !(read && readings[k] == Closed))
  {
    assert readings[k] in readings;
  }

  lemma OpenAtEnd(readings: seq<Reading>, k: nat, open: bool)
    requires k <= |readings| && OpenAfter(readings, k, open) && (open ==> k == |readings|)
    ensures open <==> Closed !in readings
  {
  }

  function StillToCome(readings: seq<Reading>, k: nat, open: bool): Bytes
    requires k <= |readings|
  {
    if open then Brought(readings[k..]) else []
  }

  lemma ToCome(readings: seq<Reading>, k: nat, read: bool)
    requires k < |readings|
    ensures var more := StillToCome(readings, if read then k + 1 else k, !(read && readings[k] == Closed));
            StillToCome(readings, k, true) == if read && readings[k].Got? then readings[k].buf + more else more
  {
    assert readings[k..][1..] == readings[k + 1..];
    assert [] + Brought(readings[k + 1..]) == Brought(readings[k + 1..]);
  }

  lemma AccountedFirst(readings: seq<Reading>, input: seq<Event>, got: Bytes)
    requires !Complete(got)
    ensures Accounted(input + Events(got + Brought(readings)), Rest(got + Brought(readings)), [], input, got,
                      StillToCome(readings, 0, true))
  {
    assert readings[0..] == readings && [] + input == input;
  }

  lemma AccountedLast(all: seq<Event>, rest: Bytes, taken: seq<Event>, input: seq<Event>, got: Bytes)
    requires Accounted(all, rest, taken, input, got, [])
    ensures taken + input == all && got == rest
  {
    assert got + [] == got && taken + input + [] == taken + input;
  }

  method PollOnce(device: VideoOut, readings: seq<Reading>, k: nat, taken: seq<Event>, ghost all: seq<Event>,
                  ghost rest: Bytes)
    returns (k': nat, taken': seq<Event>)
    requires k < |readings| && device.open && OpenAfter(readings, k, true)
    requires Accounted(all, rest, taken, device.input, device.got, StillToCome(readings, k, true))
    modifies device
    ensures k' == (if old(device.input) == [] then k + 1 else k)
    ensures old(device.input) != [] ==> |device.input| < |old(device.input)|
    ensures k' <= |readings| && OpenAfter(readings, k', device.open)
    ensures Accounted(all, rest, taken', device.input, device.got, StillToCome(readings, k', device.open))
  {
    var read, next := device.Poll(readings[k]);
    taken' := taken + next;
    k' := if read then k + 1 else k;
    OpenOn(readings, k, read);
    ghost var more := StillToCome(readings, k', device.open);
    ToCome(readings, k, read);
    if read && readings[k].Got? {
      AccountedOn(all, rest, taken, old(device.got), readings[k].buf, more, old(device.got) + readings[k].buf);
    }
    HandedOut(all, rest, taken, next, device.input, device.got, more);
  }

  // ---- the window's end ----

  /** What the window sends for an event: nothing for a character that is not ASCII, for a key the
      USB keyboard page does not have, or for no clicks of the wheel. */
  function Sent(e: Event): Bytes {
    match e
    case Char(code) => if code < 0x80 then [code] else []
    case Key(usage, down) => if 0 < usage <= 0xE7 then [MARK, KEY, usage, if down then 1 else 0] else []
    case Mouse(x, y, buttons) => [MARK, MOUSE, x / 0x100 % 0x100, x % 0x100, y / 0x100 % 0x100, y % 0x100, buttons]
    case Wheel(clicks) => if clicks != 0 then [MARK, WHEEL, clicks % 0x100] else []
  }

  function SentAll(es: seq<Event>): Bytes {
    if es == [] then [] else Sent(es[0]) + SentAll(es[1..])
  }

  /** A number cut to 16 or 8 bits and read as signed. */
  function Cut16(v: int): int { (v + 0x8000) % 0x1_0000 - 0x8000 }
  function Cut8(v: int): int { (v + 0x80) % 0x100 - 0x80 }

  /** What arrives of an event. */
  function Arrives(e: Event): seq<Event> {
    match e
    case Char(code) => if code < 0x80 then [e] else []
    case Key(usage, _) => if 0 < usage <= 0xE7 then [e] else []
    case Mouse(x, y, buttons) => [Mouse(Cut16(x), Cut16(y), buttons)]
    case Wheel(clicks) => if clicks != 0 then [Wheel(Cut8(clicks))] else []
  }

  function ArriveAll(es: seq<Event>): seq<Event> {
    if es == [] then [] else Arrives(es[0]) + ArriveAll(es[1..])
  }

  lemma CutWord(v: int)
    ensures SignedWord(v / 0x100 % 0x100, v % 0x100) == Cut16(v)
  {
    var q := v / 0x100;
    var k, h, l := q / 0x100, q % 0x100, v % 0x100;
    assert v == 0x1_0000 * k + 0x100 * h + l;
    if h >= 0x80 {
      DivUnique(v + 0x8000, 0x1_0000, k + 1, 0x100 * h + l - 0x8000);
    } else {
      DivUnique(v + 0x8000, 0x1_0000, k, 0x100 * h + l + 0x8000);
    }
  }

  lemma CutByte(v: int)
    ensures SignedByte(v % 0x100) == Cut8(v)
  {
  }

  lemma SentIsComplete(e: Event, more: Bytes)
    requires Sent(e) != []
    ensures var g := Sent(e) + more;
            Complete(g) && FirstLength(g) == |Sent(e)| && g[|Sent(e)|..] == more
              && FirstEvent(g) == FirstEvent(Sent(e) + [])
  {
  }

  lemma SentMeans(e: Event)
    requires Sent(e) != []
    ensures Complete(Sent(e) + []) && FirstEvent(Sent(e) + []) == Arrives(e)
  {
    match e
    case Mouse(x, y, _) =>
      CutWord(x);
      CutWord(y);
    case Wheel(clicks) => CutByte(clicks);
    case _ =>
  }

  /** One event's record is decoded to what arrives of it, and nothing more is taken. */
  lemma SentArrives(e: Event, more: Bytes)
    ensures Events(Sent(e) + more) == Arrives(e) + Events(more) && Rest(Sent(e) + more) == Rest(more)
  {
    if Sent(e) == [] {
      assert Sent(e) + more == more;
    } else {
      SentIsComplete(e, more);
      SentMeans(e);
    }
  }

  /** Decoding what the window sends gives what arrives of each event, with nothing over. */
  lemma {:induction false} WireRoundTrip(es: seq<Event>)
    ensures Events(SentAll(es)) == ArriveAll(es) && Rest(SentAll(es)) == []
  {
    if es != [] {
      SentArrives(es[0], SentAll(es[1..]));
      WireRoundTrip(es[1..]);
    }
  }

  /** An event arrives as it is exactly when it is one the wire can carry. */
  predicate Carried(e: Event) {
    match e
    case Char(code) => code < 0x80
    case Key(usage, _) => 0 < usage <= 0xE7
    case Mouse(x, y, _) => -0x8000 <= x < 0x8000 && -0x8000 <= y < 0x8000
    case Wheel(clicks) => clicks != 0 && -0x80 <= clicks < 0x80
  }

  lemma ArrivesIntact(e: Event)
    ensures Arrives(e) == [e] <==> Carried(e)
  {
  }

  lemma {:induction false} AllArriveIntact(es: seq<Event>)
    requires forall i :: 0 <= i < |es| ==> Carried(es[i])
    ensures ArriveAll(es) == es
  {
    if es != [] {
      ArrivesIntact(es[0]);
      AllArriveIntact(es[1..]);
    }
  }

  /** The list that was sent, however the stream is split. */
  lemma SentThroughReads(es: seq<Event>, chunks: seq<Bytes>)
    requires Joined(chunks) == SentAll(es)
    requires forall i :: 0 <= i < |es| ==> Carried(es[i])
    ensures FedEvents([], chunks) == es && FedRest([], chunks) == []
  {
    SplitDoesNotMatter([], chunks);
    assert [] + Joined(chunks) == Joined(chunks);
    WireRoundTrip(es);
    AllArriveIntact(es);
  }
}

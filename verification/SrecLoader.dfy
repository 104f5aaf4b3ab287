/** The S-record loader, and the records its tests print. */
module SrecLoader {
  import opened Words

  // ---- hexadecimal ----

  function HexNibble(c: char): (n: Option<nat>)
    ensures n.Some? ==> n.value < 0x10
  {
    if '0' <= c <= '9' then Some(c as int - '0' as int)
    else if 'A' <= c <= 'F' then Some(c as int - 'A' as int + 10)
    else if 'a' <= c <= 'f' then Some(c as int - 'a' as int + 10)
    else None
  }

  function HexByte(s: string, pos: nat): Option<byte> {
    if pos + 1 >= |s| then None
    else
      match (HexNibble(s[pos]), HexNibble(s[pos + 1]))
      case (Some(hi), Some(lo)) => Some(0x10 * hi + lo)
      case _ => None
  }

  /** Some bytes, one after another. */
  function HexBytes(s: string, pos: nat, n: nat): (b: Option<Bytes>)
    ensures b.Some? ==> |b.value| == n
  {
    if n == 0 then Some([])
    else
      match (HexBytes(s, pos, n - 1), HexByte(s, pos + 2 * (n - 1)))
      case (Some(bytes), Some(last)) => Some(bytes + [last])
      case _ => None
  }

  predicate Blank(c: char) { c == '\r' || c == '\n' || c == ' ' || c == '\t' }

  function Rstrip(s: string): string {
    if s != [] && Blank(s[|s| - 1]) then Rstrip(s[..|s| - 1]) else s
  }

  // ---- one line ----

  datatype Error =
    | NotARecord | TooShort | BadCount | UnknownType | ShorterThanCount | CountTooSmall
    | BadAddress | BadData | BadChecksum | ChecksumMismatch | PastEnd | AddressWraps

  datatype Line = Empty | Record(isData: bool, address: nat, data: Bytes) | Bad(error: Error)

  /** How many address bytes a type of record has; none for an unknown type. */
  function AddressBytes(kind: char): nat {
    if kind == '0' || kind == '1' || kind == '5' || kind == '9' then 2
    else if kind == '2' || kind == '6' || kind == '8' then 3
    else if kind == '3' || kind == '7' then 4
    else 0
  }

  function Sum(s: Bytes): nat {
    if s == [] then 0 else Sum(s[..|s| - 1]) + s[|s| - 1]
  }

  function BigEndianValue(s: Bytes): nat {
    if s == [] then 0 else 0x100 * BigEndianValue(s[..|s| - 1]) + s[|s| - 1]
  }

  /** One's complement of the low 8 bits of the sum of the bytes before it. */
  function Checksum(sum: nat): byte { 0xFF - sum % 0x100 }

  /** A record by its fields, as far as they could be read. */
  function Judged(kind: char, count: byte, address: Option<Bytes>, data: Option<Bytes>, checksum: Option<byte>): Line {
    if address.None? then Bad(BadAddress)
    else if data.None? then Bad(BadData)
    else if checksum.None? then Bad(BadChecksum)
    else if checksum.value != Checksum(count + Sum(address.value) + Sum(data.value)) then Bad(ChecksumMismatch)
    else Record('1' <= kind <= '3', BigEndianValue(address.value), data.value)
  }

  function Fields(s: string, kind: char, count: byte): Line
    requires AddressBytes(kind) + 1 <= count
  {
    var n := AddressBytes(kind);
    Judged(kind, count, HexBytes(s, 4, n), HexBytes(s, 4 + 2 * n, count - n - 1), HexByte(s, 2 + 2 * count))
  }

  function ParseLine(line: string): Line {
    var s := Rstrip(line);
    if s == [] then Empty
    else if s[0] != 'S' && s[0] != 's' then Bad(NotARecord)
    else if |s| < 4 then Bad(TooShort)
    else
      match HexByte(s, 2)
      case None => Bad(BadCount)
      case Some(count) =>
        if AddressBytes(s[1]) == 0 then Bad(UnknownType)
        else if |s| < 4 + 2 * count then Bad(ShorterThanCount)
        else if count < AddressBytes(s[1]) + 1 then Bad(CountTooSmall)
        else Fields(s, s[1], count)
  }

  // ---- a whole file ----

  /** The memory, and the hull of what has been stored in it. */
  datatype State = State(mem: Bytes, any: bool, lo: nat, hi: nat)

  datatype Store = Store(address: nat, data: Bytes)

  function Stored(s: State, st: Store): State
    requires st.address + |st.data| <= |s.mem| && st.data != []
  {
    var end := st.address + |st.data| - 1;
    State(Splice(s.mem, st.address, st.data), true, if s.any then Min(st.address, s.lo) else st.address,
          if s.any then Max(end, s.hi) else end)
  }

  /** The program's test that a record ends inside the memory, which adds in 32 bits. */
  predicate PassesTest(size: nat, st: Store) { ToU32(st.address + |st.data|) <= size }

  predicate EndsInside(size: nat, st: Store) { st.address + |st.data| <= size }

  /** A record the program's test lets through although it ends past the memory: the program then
      writes outside it, which has no meaning here. `AddressWraps` stands for that, and is no error
      of the program's. */
  predicate Wraps(size: nat, st: Store) { st.address + |st.data| >= WORD_32 && PassesTest(size, st) }

  function Fits(size: nat, st: Store): Option<Error> {
    if !PassesTest(size, st) then Some(PastEnd)
    else if !EndsInside(size, st) then Some(AddressWraps)
    else None
  }

  /** What a line stores: nothing but a data record with data does. */
  function StoreOf(line: Line): seq<Store> {
    if line.Record? && line.isData && line.data != [] then [Store(line.address, line.data)] else []
  }

  function LineError(size: nat, line: Line): Option<Error> {
    if line.Bad? then Some(line.error)
    else if StoreOf(line) == [] then None
    else Fits(size, StoreOf(line)[0])
  }

  /** A good line's effect. */
  function LineDone(s: State, line: Line): (r: State)
    requires LineError(|s.mem|, line) == None
    ensures |r.mem| == |s.mem|
  {
    if StoreOf(line) == [] then s else Stored(s, StoreOf(line)[0])
  }

  /** The lines up to the first bad one, if there is one. */
  function Load(s: State, lines: seq<Line>): (r: (Option<Error>, State))
    ensures |r.1.mem| == |s.mem|
    decreases |lines|
  {
    if lines == [] then (None, s)
    else
      var error := LineError(|s.mem|, lines[0]);
      if error.Some? then (error, s) else Load(LineDone(s, lines[0]), lines[1..])
  }

  function ParseAll(texts: seq<string>): (lines: seq<Line>)
    ensures |lines| == |texts|
  {
    seq(|texts|, i requires 0 <= i < |texts| => ParseLine(texts[i]))
  }

  /** A file loaded into memory where nothing has been stored yet. */
  function LoadFile(mem: Bytes, texts: seq<string>): (Option<Error>, State) {
    Load(State(mem, false, 0, 0), ParseAll(texts))
  }

  // ---- the program's loops ----

  /** One byte that is not hexadecimal spoils all that come after. */
  lemma {:induction false} HexBytesSpoiled(s: string, pos: nat, i: nat, n: nat)
    requires i < n && HexByte(s, pos + 2 * i) == None
    ensures HexBytes(s, pos, n) == None
  {
    if i < n - 1 {
      HexBytesSpoiled(s, pos, i, n - 1);
    }
  }

  lemma SumOn(s: Bytes, b: byte)
    ensures Sum(s + [b]) == Sum(s) + b && BigEndianValue(s + [b]) == 0x100 * BigEndianValue(s) + b
  {
    assert (s + [b])[..|s|] == s;
  }

  /** Some bytes of a field, with their sum added to the running one. */
  method ReadBytes(s: string, pos: nat, n: nat, sum: nat) returns (bytes: Option<Bytes>, total: nat)
    ensures bytes == HexBytes(s, pos, n)
    ensures bytes.Some? ==> total == sum + Sum(bytes.value)
  {
    var read: Bytes, i := [], 0;
    total := sum;
    while i < n
      invariant 0 <= i <= n && HexBytes(s, pos, i) == Some(read) && total == sum + Sum(read)
    {
      var b := HexByte(s, pos + 2 * i);
      if b == None {
        HexBytesSpoiled(s, pos, i, n);
        return None, total;
      }
      SumOn(read, b.value);
      read := read + [b.value];
      total := total + b.value;
      i := i + 1;
    }
    bytes := Some(read);
  }

  /** The address bytes, the first the highest. */
  method ReadAddress(s: string, n: nat, sum: nat) returns (address: Option<nat>, total: nat)
    ensures var bytes := HexBytes(s, 4, n);
            if bytes.None? then address == None
            else address == Some(BigEndianValue(bytes.value)) && total == sum + Sum(bytes.value)
  {
    var value: nat, i := 0, 0;
    ghost var read: Bytes := [];
    total := sum;
    while i < n
      invariant 0 <= i <= n && HexBytes(s, 4, i) == Some(read) && total == sum + Sum(read)
      invariant value == BigEndianValue(read)
    {
      var b := HexByte(s, 4 + 2 * i);
      if b == None {
        HexBytesSpoiled(s, 4, i, n);
        return None, total;
      }
      SumOn(read, b.value);
      read := read + [b.value];
      value := 0x100 * value + b.value;
      total := total + b.value;
      i := i + 1;
    }
    address := Some(value);
  }

  lemma FieldsAre(s: string, kind: char, count: byte, address: Option<Bytes>, data: Option<Bytes>,
                  checksum: Option<byte>)
    requires AddressBytes(kind) + 1 <= count
    requires address == HexBytes(s, 4, AddressBytes(kind)) && checksum == HexByte(s, 2 + 2 * count)
    requires data == HexBytes(s, 4 + 2 * AddressBytes(kind), count - AddressBytes(kind) - 1)
    ensures Fields(s, kind, count) == Judged(kind, count, address, data, checksum)
  {
  }

  method ReadFields(s: string, kind: char, count: byte) returns (line: Line)
    requires AddressBytes(kind) + 1 <= count
    ensures line == Fields(s, kind, count)
  {
    var n := AddressBytes(kind);
    ghost var first, rest := HexBytes(s, 4, n), HexBytes(s, 4 + 2 * n, count - n - 1);
    FieldsAre(s, kind, count, first, rest, HexByte(s, 2 + 2 * count));
    var address, sum := ReadAddress(s, n, count);
    if address == None {
      return Bad(BadAddress);
    }
    var data, total := ReadBytes(s, 4 + 2 * n, count - n - 1, sum);
    if data == None {
      return Bad(BadData);
    }
    var checksum := HexByte(s, 2 + 2 * count);
    line := Judge(kind, count, first, address.value, data.value, total, checksum);
  }

  method Judge(kind: char, count: byte, ghost first: Option<Bytes>, address: nat, data: Bytes, total: nat,
               checksum: Option<byte>) returns (line: Line)
    requires first.Some? && address == BigEndianValue(first.value) && total == count + Sum(first.value) + Sum(data)
    ensures line == Judged(kind, count, first, Some(data), checksum)
  {
    if checksum == None {
      return Bad(BadChecksum);
    }
    if checksum.value != Checksum(total) {
      return Bad(ChecksumMismatch);
    }
    line := Record('1' <= kind <= '3', address, data);
  }

  method ReadLine(text: string) returns (line: Line)
    ensures line == ParseLine(text)
  {
    var s := text;
    while s != [] && Blank(s[|s| - 1])
      invariant Rstrip(s) == Rstrip(text)
      decreases |s|
    {
      s := s[..|s| - 1];
    }
    if s == [] {
      return Empty;
    }
    if s[0] != 'S' && s[0] != 's' {
      return Bad(NotARecord);
    }
    if |s| < 4 {
      return Bad(TooShort);
    }
    var count := HexByte(s, 2);
    if count == None {
      return Bad(BadCount);
    }
    if AddressBytes(s[1]) == 0 {
      return Bad(UnknownType);
    }
    if |s| < 4 + 2 * count.value {
      return Bad(ShorterThanCount);
    }
    if count.value < AddressBytes(s[1]) + 1 {
      return Bad(CountTooSmall);
    }
    line := ReadFields(s, s[1], count.value);
  }

  method StoreData(mem: array<byte>, address: nat, data: Bytes)
    requires address + |data| <= mem.Length
    modifies mem
    ensures mem[..] == Splice(old(mem[..]), address, data)
  {
    var i := 0;
    while i < |data|
      invariant 0 <= i <= |data|
      invariant mem[..] == Splice(old(mem[..]), address, data[..i])
    {
      SpliceOn(old(mem[..]), address, data, i);
      mem[address + i] := data[i];
      i := i + 1;
    }
    assert data[..i] == data;
  }

  lemma SpliceOn(s: Bytes, at: nat, data: Bytes, i: nat)
    requires at + |data| <= |s| && i < |data|
    ensures Splice(s, at, data[..i])[at + i := data[i]] == Splice(s, at, data[..i + 1])
  {
  }

  /** One record's data into memory, and the hull with it. */
  method StoreRecord(mem: array<byte>, st: Store, any: bool, lo: nat, hi: nat) returns (low: nat, high: nat)
    requires st.address + |st.data| <= mem.Length && st.data != []
    modifies mem
    ensures State(mem[..], true, low, high) == Stored(State(old(mem[..]), any, lo, hi), st)
  {
    StoreData(mem, st.address, st.data);
    var end := st.address + |st.data| - 1;
    if !any {
      low, high := st.address, end;
    } else {
      low, high := lo, hi;
      if st.address < low {
        low := st.address;
      }
      if end > high {
        high := end;
      }
    }
  }

  /** The whole file into memory, up to its first bad line. */
  method LoadSrec(mem: array<byte>, texts: seq<string>) returns (error: Option<Error>, any: bool, lo: nat, hi: nat)
    modifies mem
    ensures (error, State(mem[..], any, lo, hi)) == LoadFile(old(mem[..]), texts)
  {
    any, lo, hi := false, 0, 0;
    ghost var lines := ParseAll(texts);
    assert lines[0..] == lines;
    for i := 0 to |texts|
      invariant Load(State(mem[..], any, lo, hi), lines[i..]) == LoadFile(old(mem[..]), texts)
    {
      assert lines[i..][0] == lines[i] && lines[i..][1..] == lines[i + 1..];
      var line := ReadLine(texts[i]);
      if line.Bad? {
        return Some(line.error), any, lo, hi;
      }
      if line.Record? && line.isData && line.data != [] {
        var st := Store(line.address, line.data);
        var problem := Fits(mem.Length, st);
        if problem.Some? {
          return problem, any, lo, hi;
        }
        lo, hi := StoreRecord(mem, st, any, lo, hi);
        any := true;
      }
    }
    error := None;
  }

  // ---- what a load stores ----

  /** The records a load stores, in order: all up to its first bad line. */
  function StoresOf(size: nat, lines: seq<Line>): seq<Store> {
    if lines == [] || LineError(size, lines[0]).Some? then [] else StoreOf(lines[0]) + StoresOf(size, lines[1..])
  }

  predicate AllFit(size: nat, stores: seq<Store>) {
    forall i :: 0 <= i < |stores| ==> stores[i].address + |stores[i].data| <= size && stores[i].data != []
  }

  function StoreAll(s: State, stores: seq<Store>): (r: State)
    requires AllFit(|s.mem|, stores)
    ensures |r.mem| == |s.mem|
    decreases |stores|
  {
    if stores == [] then s else StoreAll(Stored(s, stores[0]), stores[1..])
  }

  lemma {:induction false} LoadStores(s: State, lines: seq<Line>)
    ensures AllFit(|s.mem|, StoresOf(|s.mem|, lines))
    ensures Load(s, lines).1 == StoreAll(s, StoresOf(|s.mem|, lines))
    decreases |lines|
  {
    if lines != [] && LineError(|s.mem|, lines[0]).None? {
      var rest := StoresOf(|s.mem|, lines[1..]);
      LoadStores(LineDone(s, lines[0]), lines[1..]);
      if StoreOf(lines[0]) == [] {
        assert [] + rest == rest;
      } else {
        StoreFirst(s, StoreOf(lines[0])[0], rest);
      }
    }
  }

  lemma StoreFirst(s: State, st: Store, rest: seq<Store>)
    requires st.address + |st.data| <= |s.mem| && st.data != [] && AllFit(|s.mem|, rest)
    ensures AllFit(|s.mem|, [st] + rest) && StoreAll(s, [st] + rest) == StoreAll(Stored(s, st), rest)
  {
    assert ([st] + rest)[1..] == rest;
  }

  predicate Covers(st: Store, a: nat) { st.address <= a < st.address + |st.data| }

  ghost predicate Written(stores: seq<Store>, a: nat) {
    exists i :: 0 <= i < |stores| && Covers(stores[i], a)
  }

  /** [lo, hi] is exactly as wide as what was written: every written address is in it, and both its
      ends are written. Nothing written, no hull. */
  ghost predicate Tight(any: bool, lo: nat, hi: nat, stores: seq<Store>) {
    && (any <==> stores != [])
    && (any ==> Written(stores, lo) && Written(stores, hi) && forall a: nat :: Written(stores, a) ==> lo <= a <= hi)
  }

  lemma WrittenOn(stores: seq<Store>, st: Store, a: nat)
    ensures Written(stores + [st], a) <==> Written(stores, a) || Covers(st, a)
  {
    var all := stores + [st];
    if Written(stores, a) {
      var i :| 0 <= i < |stores| && Covers(stores[i], a);
      assert all[i] == stores[i];
    }
    assert all[|stores|] == st;
  }

  lemma TightOn(s: State, before: seq<Store>, st: Store)
    requires st.address + |st.data| <= |s.mem| && st.data != [] && Tight(s.any, s.lo, s.hi, before)
    ensures var n := Stored(s, st); Tight(n.any, n.lo, n.hi, before + [st])
  {
    var n := Stored(s, st);
    forall a: nat
      ensures Written(before + [st], a) <==> Written(before, a) || Covers(st, a)
    {
      WrittenOn(before, st, a);
    }
    assert Covers(st, st.address) && Covers(st, st.address + |st.data| - 1);
  }

  lemma {:induction false} TightAll(s: State, before: seq<Store>, stores: seq<Store>)
    requires AllFit(|s.mem|, stores) && Tight(s.any, s.lo, s.hi, before)
    ensures var n := StoreAll(s, stores); Tight(n.any, n.lo, n.hi, before + stores)
    decreases |stores|
  {
    if stores == [] {
      assert before + stores == before;
    } else {
      TightOn(s, before, stores[0]);
      TightAll(Stored(s, stores[0]), before + [stores[0]], stores[1..]);
      assert before + [stores[0]] + stores[1..] == before + stores;
    }
  }

  /** In a memory below 4 GB the program's test is right except where the 32-bit sum wraps and comes
      out small enough. */
  lemma TestIsRight(size: nat, st: Store)
    requires size < WORD_32
    ensures (PassesTest(size, st) <==> EndsInside(size, st)) <==> !Wraps(size, st)
    ensures Fits(size, st) == Some(AddressWraps) <==> Wraps(size, st)
  {
  }

  /** No record of a file passes the program's test by wrapping. */
  predicate NoneWraps(size: nat, lines: seq<Line>) {
    forall i :: 0 <= i < |lines| && StoreOf(lines[i]) != [] ==> !Wraps(size, StoreOf(lines[i])[0])
  }

  /** Then all the errors a load ends with are the program's own. */
  lemma {:induction false} NoneWrapsNoError(s: State, lines: seq<Line>)
    requires |s.mem| < WORD_32 && NoneWraps(|s.mem|, lines)
    requires forall i :: 0 <= i < |lines| ==> lines[i] != Bad(AddressWraps)
    ensures Load(s, lines).0 != Some(AddressWraps)
    decreases |lines|
  {
    if lines != [] {
      if StoreOf(lines[0]) != [] {
        TestIsRight(|s.mem|, StoreOf(lines[0])[0]);
      }
      if LineError(|s.mem|, lines[0]).None? {
        NoneWrapsNoError(LineDone(s, lines[0]), lines[1..]);
      }
    }
  }

  /** What any load reports is the tight hull of the bytes it wrote, whether it succeeds or fails, as
      long as no record wraps: the program and the model then stop at the same line. */
  lemma HullIsTight(mem: Bytes, texts: seq<string>)
    requires |mem| < WORD_32 && NoneWraps(|mem|, ParseAll(texts))
    ensures var (error, end) := LoadFile(mem, texts);
            error != Some(AddressWraps) && Tight(end.any, end.lo, end.hi, StoresOf(|mem|, ParseAll(texts)))
  {
    forall i | 0 <= i < |texts|
      ensures ParseAll(texts)[i] != Bad(AddressWraps)
    {
      ParsingNeverWraps(texts[i]);
    }
    NoneWrapsNoError(State(mem, false, 0, 0), ParseAll(texts));
    HullOfStores(mem, texts);
  }

  lemma ParsingNeverWraps(text: string)
    ensures ParseLine(text) != Bad(AddressWraps)
  {
  }

  lemma HullOfStores(mem: Bytes, texts: seq<string>)
    ensures var end := LoadFile(mem, texts).1; Tight(end.any, end.lo, end.hi, StoresOf(|mem|, ParseAll(texts)))
  {
    var s, stores := State(mem, false, 0, 0), StoresOf(|mem|, ParseAll(texts));
    LoadStores(s, ParseAll(texts));
    TightAll(s, [], stores);
    assert [] + stores == stores;
  }

  // ---- what a load leaves in memory ----

  predicate DataAt(line: Line, a: nat) {
    line.Record? && line.isData && line.address <= a < line.address + |line.data|
  }

  /** The byte that some lines leave at an address: that of the last data record over it, and the byte
      that was there if there is no such record. */
  ghost predicate LastOver(lines: seq<Line>, a: nat, was: byte, now: byte) {
    && (forall i :: 0 <= i < |lines| && DataAt(lines[i], a) && (forall j :: i < j < |lines| ==> !DataAt(lines[j], a))
          ==> now == lines[i].data[a - lines[i].address])
    && ((forall i :: 0 <= i < |lines| ==> !DataAt(lines[i], a)) ==> now == was)
  }

  /** A line loading goes on after: no bad one, and no data past the memory. */
  predicate Good(size: nat, line: Line) {
    !line.Bad? && (line.Record? && line.isData && line.data != [] ==> line.address + |line.data| <= size)
  }

  /** The line loading ends at, and why. */
  predicate Refused(size: nat, line: Line, error: Error) {
    if line.Bad? then error == line.error
    else
      && line.Record? && line.isData && line.data != []
      && error == if (line.address + |line.data|) % 0x1_0000_0000 > size then PastEnd else AddressWraps
  }

  lemma LastOverStep(lines: seq<Line>, a: nat, was: byte, mid: byte, now: byte)
    requires lines != [] && LastOver(lines[1..], a, mid, now)
    requires mid == if DataAt(lines[0], a) then lines[0].data[a - lines[0].address] else was
    ensures LastOver(lines, a, was, now)
  {
    var rest := lines[1..];
    forall i | 0 <= i < |lines| && DataAt(lines[i], a) && forall j :: i < j < |lines| ==> !DataAt(lines[j], a)
      ensures now == lines[i].data[a - lines[i].address]
    {
      forall j | i - 1 < j < |rest|
        ensures !DataAt(rest[j], a)
      {
        assert rest[j] == lines[j + 1];
      }
      if i > 0 {
        assert rest[i - 1] == lines[i];
      }
    }
    if forall i :: 0 <= i < |lines| ==> !DataAt(lines[i], a) {
      assert forall j :: 0 <= j < |rest| ==> rest[j] == lines[j + 1];
    }
  }

  /** One good line's bytes in memory. */
  lemma DoneBytes(s: State, line: Line, a: nat)
    requires LineError(|s.mem|, line) == None && a < |s.mem|
    ensures LineDone(s, line).mem[a] == if DataAt(line, a) then line.data[a - line.address] else s.mem[a]
  {
  }

  lemma GoodLine(size: nat, line: Line)
    ensures LineError(size, line) == None <==> Good(size, line)
    ensures LineError(size, line).Some? ==> Refused(size, line, LineError(size, line).value)
  {
  }

  /** What loading some lines does: it takes all of them, or those before the first that is not good and
      gives that one's error. Each byte of memory is then that of the last data record over it among the
      lines taken, and as it was where none is. */
  lemma {:induction false} LoadMeans(s: State, lines: seq<Line>) returns (n: nat)
    ensures n <= |lines| && forall i :: 0 <= i < n ==> Good(|s.mem|, lines[i])
    ensures var error := Load(s, lines).0;
            if error == None then n == |lines|
            else n < |lines| && !Good(|s.mem|, lines[n]) && Refused(|s.mem|, lines[n], error.value)
    ensures forall a :: 0 <= a < |s.mem| ==> LastOver(lines[..n], a, s.mem[a], Load(s, lines).1.mem[a])
    decreases |lines|
  {
    n := 0;
    if lines != [] {
      GoodLine(|s.mem|, lines[0]);
      if LineError(|s.mem|, lines[0]).None? {
        var k := LoadMeans(LineDone(s, lines[0]), lines[1..]);
        n := k + 1;
        forall a | 0 <= a < |s.mem|
          ensures LastOver(lines[..n], a, s.mem[a], Load(s, lines).1.mem[a])
        {
          DoneBytes(s, lines[0], a);
          assert lines[..n][1..] == lines[1..][..k];
          LastOverStep(lines[..n], a, s.mem[a], LineDone(s, lines[0]).mem[a], Load(s, lines).1.mem[a]);
        }
      }
    }
  }

  // ---- the printer ----

  function HexDigit(n: nat): char
    requires n < 0x10
  {
    if n < 10 then '0' + n as char else 'A' + (n - 10) as char
  }

  function Hex(b: byte): string { [HexDigit(b / 0x10), HexDigit(b % 0x10)] }

  function HexAll(bytes: Bytes): (s: string)
    ensures |s| == 2 * |bytes|
  {
    if bytes == [] then "" else HexAll(bytes[..|bytes| - 1]) + Hex(bytes[|bytes| - 1])
  }

  /** A record's bytes but for the checksum: the count, the address and the data. */
  function Body(st: Store): Bytes
    requires st.address < WORD_16 && |st.data| <= 252
  {
    [|st.data| + 3, st.address / 0x100, st.address % 0x100] + st.data
  }

  function Printable(st: Store): bool { st.address < WORD_16 && |st.data| <= 252 }

  /** A record's line: its type and its bytes. */
  function RecordLine(kind: char, bytes: Bytes): string { ['S', kind] + HexAll(bytes) }

  /** An S1 record as it is printed. */
  function Printed(st: Store): string
    requires Printable(st)
  {
    RecordLine('1', Body(st) + [Checksum(Sum(Body(st)))])
  }

  lemma DigitBack(n: nat)
    requires n < 0x10
    ensures HexNibble(HexDigit(n)) == Some(n) && !Blank(HexDigit(n))
  {
  }

  lemma {:induction false} HexBack(bytes: Bytes, i: nat)
    requires i < |bytes|
    ensures HexAll(bytes)[2 * i..2 * i + 2] == Hex(bytes[i])
  {
    var n := |bytes| - 1;
    if i < n {
      HexBack(bytes[..n], i);
      assert HexAll(bytes)[2 * i..2 * i + 2] == HexAll(bytes[..n])[2 * i..2 * i + 2];
    }
  }

  lemma ByteBack(kind: char, bytes: Bytes, i: nat)
    requires i < |bytes|
    ensures HexByte(RecordLine(kind, bytes), 2 + 2 * i) == Some(bytes[i])
  {
    HexBack(bytes, i);
    var s := RecordLine(kind, bytes);
    assert s[2 + 2 * i] == HexAll(bytes)[2 * i..2 * i + 2][0] && s[3 + 2 * i] == HexAll(bytes)[2 * i..2 * i + 2][1];
    DigitBack(bytes[i] / 0x10);
    DigitBack(bytes[i] % 0x10);
  }

  lemma {:induction false} BytesBack(kind: char, bytes: Bytes, from: nat, n: nat)
    requires from + n <= |bytes|
    ensures HexBytes(RecordLine(kind, bytes), 2 + 2 * from, n) == Some(bytes[from..from + n])
  {
    if n == 0 {
      assert bytes[from..from] == [];
    } else {
      BytesBack(kind, bytes, from, n - 1);
      ByteBack(kind, bytes, from + n - 1);
      assert bytes[from..from + n] == bytes[from..from + n - 1] + [bytes[from + n - 1]];
    }
  }

  lemma NothingToStrip(kind: char, bytes: Bytes)
    requires bytes != []
    ensures Rstrip(RecordLine(kind, bytes)) == RecordLine(kind, bytes)
  {
    DigitBack(bytes[|bytes| - 1] % 0x10);
  }

  lemma {:induction false} SumParts(a: Bytes, b: Bytes)
    ensures Sum(a + b) == Sum(a) + Sum(b)
  {
    if b == [] {
      assert a + b == a;
    } else {
      assert (a + b)[..|a + b| - 1] == a + b[..|b| - 1];
      SumParts(a, b[..|b| - 1]);
    }
  }

  lemma SumOne(b: byte)
    ensures Sum([b]) == b
  {
    assert [b][..0] == [];
  }

  lemma PairValue(v: nat)
    requires v < WORD_16
    ensures BigEndianValue([v / 0x100, v % 0x100]) == v
  {
    var hi, lo := v / 0x100, v % 0x100;
    assert [hi][..0] == [];
    assert BigEndianValue([hi]) == hi;
    assert [hi, lo][..1] == [hi];
    assert BigEndianValue([hi, lo]) == 0x100 * BigEndianValue([hi]) + lo;
  }

  /** The sum of a record is that of its fields. */
  lemma SumFields(body: Bytes, n: nat)
    requires |body| >= n + 1
    ensures Sum(body) == body[0] + Sum(body[1..n + 1]) + Sum(body[n + 1..])
  {
    SumParts(body[..n + 1], body[n + 1..]);
    SumParts([body[0]], body[1..n + 1]);
    SumOne(body[0]);
    assert body[..n + 1] + body[n + 1..] == body && [body[0]] + body[1..n + 1] == body[..n + 1];
  }

  lemma BodyBytes(kind: char, body: Bytes, checksum: byte, from: nat, n: nat)
    requires from + n <= |body|
    ensures HexBytes(RecordLine(kind, body + [checksum]), 2 + 2 * from, n) == Some(body[from..from + n])
  {
    BytesBack(kind, body + [checksum], from, n);
    assert (body + [checksum])[from..from + n] == body[from..from + n];
  }

  lemma LastByte(kind: char, body: Bytes, checksum: byte)
    ensures HexByte(RecordLine(kind, body + [checksum]), 2 + 2 * |body|) == Some(checksum)
  {
    ByteBack(kind, body + [checksum], |body|);
  }

  /** What the bytes of a record before its checksum say. */
  function Meaning(kind: char, body: Bytes): Line
    requires |body| > AddressBytes(kind)
  {
    var n := AddressBytes(kind) + 1;
    Record('1' <= kind <= '3', BigEndianValue(body[1..n]), body[n..])
  }

  /** The bytes after the count, the first n of them and the others. */
  lemma {:induction false} PartsRead(kind: char, body: Bytes, checksum: byte, n: nat)
    requires n < |body|
    ensures HexBytes(RecordLine(kind, body + [checksum]), 4, n) == Some(body[1..n + 1])
    ensures HexBytes(RecordLine(kind, body + [checksum]), 4 + 2 * n, |body| - n - 1) == Some(body[n + 1..])
  {
    BodyBytes(kind, body, checksum, 1, n);
    BodyBytes(kind, body, checksum, n + 1, |body| - n - 1);
    assert body[n + 1..n + 1 + (|body| - n - 1)] == body[n + 1..];
  }

  lemma {:induction false} FieldsRead(kind: char, body: Bytes, checksum: byte)
    requires AddressBytes(kind) < |body| && body[0] == |body|
    ensures var n := AddressBytes(kind) + 1;
            Fields(RecordLine(kind, body + [checksum]), kind, body[0])
              == Judged(kind, body[0], Some(body[1..n]), Some(body[n..]), Some(checksum))
  {
    PartsRead(kind, body, checksum, AddressBytes(kind));
    LastByte(kind, body, checksum);
  }

  lemma FieldsByChecksum(kind: char, body: Bytes, checksum: byte)
    requires AddressBytes(kind) < |body| && body[0] == |body|
    ensures Fields(RecordLine(kind, body + [checksum]), kind, body[0])
         == if checksum == Checksum(Sum(body)) then Meaning(kind, body) else Bad(ChecksumMismatch)
  {
    var n := AddressBytes(kind) + 1;
    FieldsRead(kind, body, checksum);
    SumFields(body, n - 1);
    JudgedIs(kind, body[0], body[1..n], body[n..], checksum, Sum(body));
  }

  lemma JudgedIs(kind: char, count: byte, address: Bytes, data: Bytes, checksum: byte, sum: nat)
    requires sum == count + Sum(address) + Sum(data)
    ensures Judged(kind, count, Some(address), Some(data), Some(checksum))
         == if checksum == Checksum(sum) then Record('1' <= kind <= '3', BigEndianValue(address), data)
            else Bad(ChecksumMismatch)
  {
  }

  /** A line of the right count is read by its checksum: as its record if that is right, and else as
      nothing. */
  lemma LineByChecksum(kind: char, body: Bytes, checksum: byte)
    requires 0 < AddressBytes(kind) < |body| && body[0] == |body|
    ensures ParseLine(RecordLine(kind, body + [checksum]))
         == if checksum == Checksum(Sum(body)) then Meaning(kind, body) else Bad(ChecksumMismatch)
  {
    var bytes := body + [checksum];
    var s := RecordLine(kind, bytes);
    NothingToStrip(kind, bytes);
    ByteBack(kind, bytes, 0);
    assert |s| == 2 + 2 * |bytes| && s[0] == 'S' && s[1] == kind;
    FieldsByChecksum(kind, body, checksum);
  }

  /** A printed record is read back. */
  lemma PrintedParses(st: Store)
    requires Printable(st)
    ensures ParseLine(Printed(st)) == Record(true, st.address, st.data)
  {
    LineByChecksum('1', Body(st), Checksum(Sum(Body(st))));
    assert Body(st)[3..] == st.data && Body(st)[1..3] == [st.address / 0x100, st.address % 0x100];
    PairValue(st.address);
  }

  lemma {:induction false} SumChanged(s: Bytes, k: nat, b: byte)
    requires k < |s|
    ensures Sum(s[k := b]) == Sum(s) - s[k] + b
  {
    var n := |s| - 1;
    if k < n {
      SumChanged(s[..n], k, b);
      assert s[k := b][..n] == s[..n][k := b];
    } else {
      assert s[k := b][..n] == s[..n];
    }
  }

  /** Two sums with the same checksum differ by whole multiples of 256. */
  lemma ChecksumTells(sum: nat, a: byte, b: byte)
    requires sum >= a && Checksum(sum) == Checksum(sum - a + b)
    ensures a == b
  {
    DivMod(sum, 0x100);
    DivMod(sum - a + b, 0x100);
  }

  /** A printed record with the value of any one address, data or checksum byte changed is refused. */
  lemma ChangedByteRefused(st: Store, k: nat, b: byte)
    requires Printable(st)
    requires var bytes := Body(st) + [Checksum(Sum(Body(st)))]; 0 < k < |bytes| && b != bytes[k]
    ensures var bytes := Body(st) + [Checksum(Sum(Body(st)))];
            ParseLine(RecordLine('1', bytes[k := b])) == Bad(ChecksumMismatch)
  {
    var body := Body(st);
    var checksum := Checksum(Sum(body));
    var changed := (body + [checksum])[k := b];
    if k == |body| {
      assert changed == body + [b];
      LineByChecksum('1', body, b);
    } else {
      assert changed == body[k := b] + [checksum];
      SumChanged(body, k, b);
      SumAtLeast(body, k);
      if checksum == Checksum(Sum(body[k := b])) {
        ChecksumTells(Sum(body), body[k], b);
      }
      LineByChecksum('1', body[k := b], checksum);
    }
  }

  lemma {:induction false} SumAtLeast(s: Bytes, k: nat)
    requires k < |s|
    ensures s[k] <= Sum(s)
  {
    if k < |s| - 1 {
      SumAtLeast(s[..|s| - 1], k);
    }
  }

  // ---- the text of a record ----

  /** The sixteen digits in either case, and no other character is one. */
  lemma DigitsAre(c: char, n: nat)
    ensures HexNibble(c) == Some(n) <==> n < 16 && (c == "0123456789ABCDEF"[n] || c == "0123456789abcdef"[n])
  {
  }

  /** The address in the two, three or four bytes after the count. */
  function HighFirst(body: Bytes, n: nat): nat
    requires 2 <= n <= 4 && n < |body|
  {
    if n == 2 then 0x100 * body[1] as int + body[2]
    else if n == 3 then 0x1_0000 * body[1] as int + 0x100 * body[2] as int + body[3]
    else 0x100_0000 * body[1] as int + 0x1_0000 * body[2] as int + 0x100 * body[3] as int + body[4]
  }

  lemma AddressValue(body: Bytes, n: nat)
    requires 2 <= n <= 4 && n < |body|
    ensures BigEndianValue(body[1..n + 1]) == HighFirst(body, n)
  {
    assert body[1..1] == [];
    assert body[1..2][..0] == body[1..1];
    assert body[1..3][..1] == body[1..2];
    if n > 2 {
      assert body[1..4][..2] == body[1..3];
    }
    if n > 3 {
      assert body[1..5][..3] == body[1..4];
    }
    assert BigEndianValue(body[1..2]) == body[1];
    assert BigEndianValue(body[1..3]) == 0x100 * BigEndianValue(body[1..2]) + body[2];
    if n > 2 {
      assert BigEndianValue(body[1..4]) == 0x100 * BigEndianValue(body[1..3]) + body[3];
    }
  }

  lemma DataAddress(kind: char)
    requires '1' <= kind <= '3'
    ensures AddressBytes(kind) == kind as int - '1' as int + 2
  {
  }

  /** An S1, S2 or S3 record of the right checksum stores the bytes after an address of two, three or four
      bytes, highest first. */
  lemma DataRecord(kind: char, body: Bytes, checksum: byte, n: nat)
    requires '1' <= kind <= '3' && n == kind as int - '1' as int + 2 && |body| > n
    requires body[0] == |body| && checksum == Checksum(Sum(body))
    ensures ParseLine(RecordLine(kind, body + [checksum])) == Record(true, HighFirst(body, n), body[n + 1..])
  {
    DataAddress(kind);
    LineByChecksum(kind, body, checksum);
    AddressValue(body, n);
  }

  /** A record without room for its address, or of no type. */
  lemma RecordTooShort(kind: char, bytes: Bytes)
    requires |bytes| > 1 && bytes[0] == |bytes| - 1 && (bytes[0] <= AddressBytes(kind) || AddressBytes(kind) == 0)
    ensures ParseLine(RecordLine(kind, bytes)) == Bad(if AddressBytes(kind) == 0 then UnknownType else CountTooSmall)
  {
    var s := RecordLine(kind, bytes);
    NothingToStrip(kind, bytes);
    ByteBack(kind, bytes, 0);
    assert |s| == 2 + 2 * |bytes| && s[0] == 'S' && s[1] == kind;
  }

  /** What a record of another type, of so many address bytes, says. */
  predicate Idle(line: Line, length: nat, n: nat) {
    if n == 0 then line == Bad(UnknownType)
    else if length <= n then line == Bad(CountTooSmall)
    else line.Record? && !line.isData
  }

  /** A record of another type stores nothing, but has to have its address; one of no type is refused. */
  lemma OtherRecord(kind: char, body: Bytes, checksum: byte)
    requires !('1' <= kind <= '3') && body != [] && body[0] == |body| && checksum == Checksum(Sum(body))
    ensures var n := match kind
              case '0' => 2 case '5' => 2 case '9' => 2 case '6' => 3 case '8' => 3 case '7' => 4 case _ => 0;
            Idle(ParseLine(RecordLine(kind, body + [checksum])), |body|, n)
  {
    var line := ParseLine(RecordLine(kind, body + [checksum]));
    if 0 < AddressBytes(kind) < |body| {
      LineByChecksum(kind, body, checksum);
      assert Idle(line, |body|, AddressBytes(kind));
    } else {
      RecordTooShort(kind, body + [checksum]);
      assert Idle(line, |body|, AddressBytes(kind));
    }
  }

  /** Why a line is refused before its fields are looked at: the first of these that applies. */
  lemma RefusedLines(line: string)
    ensures var s, r := Rstrip(line), ParseLine(line);
            if s == "" then r == Empty
            else if s[0] != 'S' && s[0] != 's' then r == Bad(NotARecord)
            else if |s| < 4 then r == Bad(TooShort)
            else if HexByte(s, 2) == None then r == Bad(BadCount)
            else if s[1] !in "012356789" then r == Bad(UnknownType)
            else |s| < 4 + 2 * HexByte(s, 2).value ==> r == Bad(ShorterThanCount)
  {
    var s := Rstrip(line);
    if |s| > 1 {
      Types(s[1]);
    }
  }

  lemma Types(kind: char)
    ensures AddressBytes(kind) == 0 <==> kind !in "012356789"
  {
  }

  /** Two strings that differ in their first character only. */
  predicate SameTail(s: string, t: string) { |s| == |t| > 0 && s[1..] == t[1..] }

  lemma SameByte(s: string, t: string, pos: nat)
    requires SameTail(s, t) && pos > 0
    ensures HexByte(s, pos) == HexByte(t, pos)
  {
    if pos + 1 < |s| {
      assert s[pos] == s[1..][pos - 1] == t[1..][pos - 1] == t[pos];
      assert s[pos + 1] == s[1..][pos] == t[1..][pos] == t[pos + 1];
    }
  }

  lemma {:induction false} SameBytes(s: string, t: string, pos: nat, n: nat)
    requires SameTail(s, t) && pos > 0
    ensures HexBytes(s, pos, n) == HexBytes(t, pos, n)
  {
    if n > 0 {
      SameBytes(s, t, pos, n - 1);
      SameByte(s, t, pos + 2 * (n - 1));
    }
  }

  lemma {:induction false} SameStripped(s: string, t: string)
    requires SameTail(s, t) && !Blank(s[0]) && !Blank(t[0])
    ensures SameTail(Rstrip(s), Rstrip(t)) && Rstrip(s)[0] == s[0] && Rstrip(t)[0] == t[0]
    decreases |s|
  {
    var n := |s| - 1;
    if n > 0 {
      assert s[n] == s[1..][n - 1] == t[1..][n - 1] == t[n];
      if Blank(s[n]) {
        assert s[..n][1..] == s[1..][..n - 1] && t[..n][1..] == t[1..][..n - 1];
        SameStripped(s[..n], t[..n]);
      }
    }
  }

  lemma SameFields(s: string, t: string, kind: char, count: byte)
    requires SameTail(s, t) && AddressBytes(kind) + 1 <= count
    ensures Fields(s, kind, count) == Fields(t, kind, count)
  {
    var n := AddressBytes(kind);
    SameBytes(s, t, 4, n);
    SameBytes(s, t, 4 + 2 * n, count - n - 1);
    SameByte(s, t, 2 + 2 * count);
    var first, rest, last := HexBytes(s, 4, n), HexBytes(s, 4 + 2 * n, count - n - 1), HexByte(s, 2 + 2 * count);
    FieldsAre(s, kind, count, first, rest, last);
    FieldsAre(t, kind, count, first, rest, last);
  }

  /** A record that begins with a small s is the one that begins with a capital. */
  lemma SmallS(line: string, capital: string)
    requires SameTail(line, capital) && line[0] == 's' && capital[0] == 'S'
    ensures ParseLine(line) == ParseLine(capital)
  {
    SameStripped(line, capital);
    var s, t := Rstrip(line), Rstrip(capital);
    if |s| >= 4 {
      assert s[1] == s[1..][0] == t[1..][0] == t[1];
      SameByte(s, t, 2);
      var count := HexByte(s, 2);
      if count.Some? && 0 < AddressBytes(s[1]) < count.value {
        SameFields(s, t, s[1], count.value);
      }
    }
  }

  /** White space at the end of a line makes no difference. */
  lemma BlankEnd(line: string, c: char)
    requires c in "\r\n\t "
    ensures ParseLine(line + [c]) == ParseLine(line)
  {
    assert (line + [c])[..|line|] == line;
  }

  // ---- the round trip ----

  function PrintAll(records: seq<Store>): seq<string>
    requires forall i :: 0 <= i < |records| ==> Printable(records[i])
  {
    seq(|records|, i requires 0 <= i < |records| => Printed(records[i]))
  }

  /** The records with data. */
  function WithData(records: seq<Store>): seq<Store> {
    if records == [] then []
    else (if records[0].data == [] then [] else [records[0]]) + WithData(records[1..])
  }

  predicate InMemory(size: nat, records: seq<Store>) {
    forall i :: 0 <= i < |records| ==> Printable(records[i]) && records[i].address + |records[i].data| <= size
  }

  function RecordsOf(records: seq<Store>): seq<Line> {
    seq(|records|, i requires 0 <= i < |records| => Record(true, records[i].address, records[i].data))
  }

  lemma PrintedLines(records: seq<Store>)
    requires forall i :: 0 <= i < |records| ==> Printable(records[i])
    ensures ParseAll(PrintAll(records)) == RecordsOf(records)
  {
    forall i | 0 <= i < |records|
      ensures ParseLine(PrintAll(records)[i]) == RecordsOf(records)[i]
    {
      PrintedParses(records[i]);
    }
  }

  lemma {:induction false} RecordsStore(s: State, records: seq<Store>)
    requires InMemory(|s.mem|, records)
    ensures Load(s, RecordsOf(records)).0 == None
    ensures StoresOf(|s.mem|, RecordsOf(records)) == WithData(records)
    decreases |records|
  {
    if records != [] {
      var line := RecordsOf(records)[0];
      assert RecordsOf(records)[1..] == RecordsOf(records[1..]);
      assert LineError(|s.mem|, line) == None;
      RecordsStore(LineDone(s, line), records[1..]);
    }
  }

  /** The byte at an address is that of the last record over it, and as it was if there is none. */
  ghost predicate LastRecord(records: seq<Store>, a: nat, was: byte, now: byte) {
    && (forall i :: 0 <= i < |records| && Covers(records[i], a)
                   && (forall j :: i < j < |records| ==> !Covers(records[j], a))
          ==> now == records[i].data[a - records[i].address])
    && ((forall i :: 0 <= i < |records| ==> !Covers(records[i], a)) ==> now == was)
  }

  lemma LastRecordOver(records: seq<Store>, a: nat, was: byte, now: byte)
    requires LastOver(RecordsOf(records), a, was, now)
    ensures LastRecord(records, a, was, now)
  {
    forall i | 0 <= i < |records|
      ensures DataAt(RecordsOf(records)[i], a) <==> Covers(records[i], a)
    {
    }
  }

  /** Loading what is printed for any records that fit the memory succeeds, leaves every byte as the last
      record over it has it or as it was if none is, and reports the tight hull of the bytes written. */
  lemma RoundTrip(mem: Bytes, records: seq<Store>)
    requires InMemory(|mem|, records)
    ensures var (error, end) := LoadFile(mem, PrintAll(records));
            && error == None && |end.mem| == |mem|
            && (forall a :: 0 <= a < |mem| ==> LastRecord(records, a, mem[a], end.mem[a]))
            && Tight(end.any, end.lo, end.hi, WithData(records))
  {
    var s := State(mem, false, 0, 0);
    PrintedLines(records);
    RecordsStore(s, records);
    var n := LoadMeans(s, RecordsOf(records));
    assert RecordsOf(records)[..n] == RecordsOf(records);
    forall a | 0 <= a < |mem|
      ensures LastRecord(records, a, mem[a], Load(s, RecordsOf(records)).1.mem[a])
    {
      LastRecordOver(records, a, mem[a], Load(s, RecordsOf(records)).1.mem[a]);
    }
    HullOfStores(mem, PrintAll(records));
  }

  /** A record of two data bytes at $FFFFFFFF, and any memory below 4 GB: the sum of the address and the
      length wraps to 1, and the program's test lets the record through. */
  lemma WrappingRecord(size: nat)
    requires 0 < size < WORD_32
    ensures RecordLine('3', WRAPPING) == "S307FFFFFFFFAABB97"
    ensures ParseLine(RecordLine('3', WRAPPING)) == Record(true, 0xFFFF_FFFF, [0xAA, 0xBB])
    ensures var st := Store(0xFFFF_FFFF, [0xAA, 0xBB]);
            PassesTest(size, st) && !EndsInside(size, st) && Wraps(size, st)
  {
    WrappingText();
    WrappingParses();
    WrappingPasses(size, [0xAA, 0xBB]);
  }

  lemma WrappingPasses(size: nat, data: Bytes)
    requires 0 < size < WORD_32 && |data| == 2
    ensures var st := Store(0xFFFF_FFFF, data); PassesTest(size, st) && !EndsInside(size, st) && Wraps(size, st)
  {
  }

  lemma WrappingParses()
    ensures ParseLine(RecordLine('3', WRAPPING)) == Record(true, 0xFFFF_FFFF, [0xAA, 0xBB])
  {
    var body: Bytes := [7, 0xFF, 0xFF, 0xFF, 0xFF, 0xAA, 0xBB];
    assert WRAPPING == body + [0x97];
    LineByChecksum('3', body, 0x97);
    WrappingMeans(body);
  }

  lemma WrappingMeans(body: Bytes)
    requires body == [7, 0xFF, 0xFF, 0xFF, 0xFF, 0xAA, 0xBB]
    ensures Checksum(Sum(body)) == 0x97 && Meaning('3', body) == Record(true, 0xFFFF_FFFF, [0xAA, 0xBB])
  {
    assert body[1..5] == [0xFF, 0xFF, 0xFF, 0xFF] && body[5..] == [0xAA, 0xBB];
    FourSums();
    SumFields(body, 4);
  }

  const WRAPPING: Bytes := [7, 0xFF, 0xFF, 0xFF, 0xFF, 0xAA, 0xBB, 0x97]

  /** A line of the digits of some bytes is the one printed for them. */
  lemma LineOf(kind: char, bytes: Bytes, s: string)
    requires |s| == 2 + 2 * |bytes| && s[0] == 'S' && s[1] == kind
    requires forall i :: 0 <= i < |bytes| ==> s[2 + 2 * i..4 + 2 * i] == Hex(bytes[i])
    ensures RecordLine(kind, bytes) == s
  {
    var line := RecordLine(kind, bytes);
    forall k | 2 <= k < |s|
      ensures line[k] == s[k]
    {
      var i := (k - 2) / 2;
      HexBack(bytes, i);
      assert line[2 + 2 * i..4 + 2 * i] == HexAll(bytes)[2 * i..2 * i + 2];
      assert line[k] == line[2 + 2 * i..4 + 2 * i][k - 2 - 2 * i];
      assert s[k] == s[2 + 2 * i..4 + 2 * i][k - 2 - 2 * i];
    }
  }

  lemma WrappingText()
    ensures RecordLine('3', WRAPPING) == "S307FFFFFFFFAABB97"
  {
    var s := "S307FFFFFFFFAABB97";
    forall i | 0 <= i < |WRAPPING|
      ensures s[2 + 2 * i..4 + 2 * i] == Hex(WRAPPING[i])
    {
      assert [s[2 + 2 * i], s[3 + 2 * i]] == s[2 + 2 * i..4 + 2 * i];
    }
    LineOf('3', WRAPPING, s);
  }

  lemma FourSums()
    ensures Sum([0xFF, 0xFF, 0xFF, 0xFF]) == 1020 && BigEndianValue([0xFF, 0xFF, 0xFF, 0xFF]) == 0xFFFF_FFFF
    ensures Sum([0xAA, 0xBB]) == 0x165
  {
    SumOn([], 0xFF);
    assert [] + [0xFF] == [0xFF];
    SumOn([0xFF], 0xFF);
    assert [0xFF] + [0xFF] == [0xFF, 0xFF];
    SumOn([0xFF, 0xFF], 0xFF);
    assert [0xFF, 0xFF] + [0xFF] == [0xFF, 0xFF, 0xFF];
    SumOn([0xFF, 0xFF, 0xFF], 0xFF);
    assert [0xFF, 0xFF, 0xFF] + [0xFF] == [0xFF, 0xFF, 0xFF, 0xFF];
    SumOn([], 0xAA);
    assert [] + [0xAA] == [0xAA];
    SumOn([0xAA], 0xBB);
    assert [0xAA] + [0xBB] == [0xAA, 0xBB];
  }

  /** With a byte of one record changed, loading fails there: the records before it are stored, and of
      that record and what comes after it nothing. */
  lemma ChangedRecordFails(mem: Bytes, before: seq<Store>, st: Store, k: nat, b: byte, after: seq<string>)
    requires InMemory(|mem|, before) && Printable(st)
    requires var bytes := Body(st) + [Checksum(Sum(Body(st)))]; 0 < k < |bytes| && b != bytes[k]
    ensures var changed := RecordLine('1', (Body(st) + [Checksum(Sum(Body(st)))])[k := b]);
            var (error, end) := LoadFile(mem, PrintAll(before) + [changed] + after);
            && error == Some(ChecksumMismatch) && end == LoadFile(mem, PrintAll(before)).1 && |end.mem| == |mem|
            && (forall a :: 0 <= a < |mem| ==> LastRecord(before, a, mem[a], end.mem[a]))
            && Tight(end.any, end.lo, end.hi, WithData(before))
  {
    var s := State(mem, false, 0, 0);
    var changed := RecordLine('1', (Body(st) + [Checksum(Sum(Body(st)))])[k := b]);
    ChangedByteRefused(st, k, b);
    RoundTrip(mem, before);
    PrintedLines(before);
    StopsAt(s, RecordsOf(before), ChecksumMismatch, ParseAll(after));
    assert ParseAll(PrintAll(before) + [changed] + after)
        == RecordsOf(before) + [Bad(ChecksumMismatch)] + ParseAll(after) by {
      ParseJoined(PrintAll(before), changed, after);
    }
  }

  lemma ParseJoined(before: seq<string>, text: string, after: seq<string>)
    ensures ParseAll(before + [text] + after) == ParseAll(before) + [ParseLine(text)] + ParseAll(after)
  {
  }

  /** A load of good lines and then a bad one stops at that with what the good ones stored. */
  lemma {:induction false} StopsAt(s: State, good: seq<Line>, error: Error, after: seq<Line>)
    requires Load(s, good).0 == None
    ensures Load(s, good + [Bad(error)] + after) == (Some(error), Load(s, good).1)
    decreases |good|
  {
    var lines := good + [Bad(error)] + after;
    if good != [] {
      assert lines[0] == good[0] && lines[1..] == good[1..] + [Bad(error)] + after;
      StopsAt(LineDone(s, good[0]), good[1..], error, after);
    }
  }
}

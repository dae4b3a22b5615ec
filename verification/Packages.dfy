/**
 The wire formats of Package/ChatPackage.cpp and Package/EchoPackage.cpp.

 A parser is handed a pointer and a size. Here `mem` is the readable memory from
 that pointer on and `size` is the size the caller claims. Both recognisers read the
 first three bytes before they look at the size, so three bytes must be readable.
 */
module Packages {
  import opened BitSerial
  import opened CrcRegister
  import opened Crc
  import Octets

  const CHAT_HEADER := 7
  const CHAT_TAIL := 3
  const CHAT_LENGTH := CHAT_HEADER + CHAT_TAIL
  const ECHO_HEADER := 3

  datatype Option<+T> = None | Some(value: T)

  /** A package object; `dataLength` is its 16-bit `data_length` field. */
  datatype Package =
    | Chat(raw: seq<byte>, dataLength: nat)
    | Echo(raw: seq<byte>, dataLength: nat)
  {
    function Header(): nat { if Chat? then CHAT_HEADER else ECHO_HEADER }

    /** What `data()` and `length()` delimit. */
    function Payload(): seq<byte>
      requires Header() + dataLength <= |raw|
    {
      raw[Header()..Header() + dataLength]
    }
  }

  // ---- sixteen-bit integers in network order ----

  function Be16(n: nat): (s: seq<byte>)
    requires n < 0x10000
    ensures |s| == 2
  {
    [(n / 256) as bv8, (n % 256) as bv8]
  }

  function FromBe16(hi: byte, lo: byte): (n: nat)
    ensures n < 0x10000
  {
    (hi as nat) * 256 + (lo as nat)
  }

  /** The high byte comes first. */
  lemma Be16IsBigEndian(n: nat)
    requires n < 0x10000
    ensures Be16(n)[0] as nat == n / 256 && Be16(n)[1] as nat == n % 256
  {
    Octets.ByteRoundTrip(n / 256);
    Octets.ByteRoundTrip(n % 256);
  }

  lemma Be16RoundTrip(n: nat)
    requires n < 0x10000
    ensures FromBe16(Be16(n)[0], Be16(n)[1]) == n
  {
    Octets.ByteRoundTrip(n / 256);
    Octets.ByteRoundTrip(n % 256);
  }

  // ---- chat packages ----

  function ChatHead(crypt: byte, dtype: byte, dataLength: nat): (s: seq<byte>)
    ensures |s| == CHAT_HEADER
  {
    [0x7A] + Be16((dataLength + CHAT_LENGTH) % 0x10000) + [0x01, dtype, crypt, 0x00]
  }

  /** The bytes the building constructor produces; it keeps the payload length in sixteen bits. */
  function ChatFrame(crypt: byte, dtype: byte, payload: seq<byte>): (s: seq<byte>)
    ensures |s| == |payload| % 0x10000 + CHAT_LENGTH
  {
    var dataLength := |payload| % 0x10000;
    var body := ChatHead(crypt, dtype, dataLength) + payload[..dataLength];
    body + Stored(Crc16Of(body)) + [0x7B]
  }

  method BuildChat(crypt: byte, dtype: byte, payload: seq<byte>) returns (pkg: Package)
    ensures pkg == Chat(ChatFrame(crypt, dtype, payload), |payload| % 0x10000)
  {
    var dataLength := |payload| % 0x10000;
    var rawDataLength := dataLength + CHAT_LENGTH;
    var rawData := [0x7A] + Be16(rawDataLength % 0x10000) + [0x01, dtype, crypt, 0x00];
    rawData := rawData + payload[..dataLength];
    var crc := Crc16(rawData[..CHAT_HEADER + dataLength]);
    assert rawData[..CHAT_HEADER + dataLength] == rawData;
    rawData := rawData + Stored(crc) + [0x7B];
    pkg := Chat(rawData, dataLength);
  }

  /** The tail flag and the stored CRC of an n-byte frame. */
  predicate TailMatches(mem: seq<byte>, n: nat)
    requires CHAT_LENGTH < n <= |mem|
  {
    mem[n - 1] == 0x7B && mem[n - CHAT_TAIL..n - 1] == Stored(Crc16Of(mem[..n - CHAT_TAIL]))
  }

  method CheckTail(mem: seq<byte>, n: nat) returns (ok: bool)
    requires CHAT_LENGTH < n <= |mem|
    ensures ok == TailMatches(mem, n)
  {
    if mem[n - 1] != 0x7B {
      return false;
    }
    var crc := Crc16(mem[..n - CHAT_TAIL]);
    ok := mem[n - CHAT_TAIL..n - 1] == Stored(crc);
  }

  datatype Recognised = NotAPackage | Whole(frame: nat) | Partial(frame: nat, want: nat)

  function Recognise(mem: seq<byte>, size: nat): Recognised
    requires 3 <= |mem| && size <= |mem|
  {
    var n := FromBe16(mem[1], mem[2]);
    if mem[0] != 0x7A || n <= CHAT_LENGTH then NotAPackage
    else if size < n then Partial(n, n - size)
    else if TailMatches(mem, n) then Whole(n)
    else NotAPackage
  }

  /** `isOnePackage`: its out-parameters keep their values when it returns false. */
  method IsOnePackage(mem: seq<byte>, size: nat, frame: nat, want: nat) returns (found: bool, frame': nat, want': nat)
    requires 3 <= |mem| && size <= |mem|
    ensures match Recognise(mem, size)
      case NotAPackage => !found && frame' == frame && want' == want
      case Whole(f) => found && frame' == f && want' == 0
      case Partial(f, w) => found && frame' == f && want' == w
  {
    frame', want' := frame, want;
    var dataSize := FromBe16(mem[1], mem[2]);
    if mem[0] == 0x7A && dataSize > CHAT_LENGTH {
      if size >= dataSize {
        var ok := CheckTail(mem, dataSize);
        if ok {
          return true, dataSize, 0;
        }
      } else {
        return true, dataSize, dataSize - size;
      }
    }
    found := false;
  }

  // ---- parsing and dispatch ----

  /** The result of `parseOnePackage` and its three out-parameters. */
  datatype Parsed = Parsed(found: bool, framePos: nat, frameSize: nat, readWant: nat)

  /** The scan inspects the same position every time round, so it either stops at once or never. */
  function ChatParse(mem: seq<byte>, size: nat): (p: Parsed)
    requires 3 <= |mem| && size <= |mem|
    ensures p.found ==> p.framePos == 0 && p.readWant == 0 && p.frameSize >= ECHO_HEADER
  {
    if size < CHAT_LENGTH then Parsed(false, 0, 0, 0)
    else match Recognise(mem, size)
      case NotAPackage => Parsed(false, size, 0, 0)
      case Whole(f) => Parsed(true, 0, f, 0)
      case Partial(f, w) => Parsed(false, 0, f, w)
  }

  method ChatParseOnePackage(mem: seq<byte>, size: nat) returns (p: Parsed)
    requires 3 <= |mem| && size <= |mem|
    ensures p == ChatParse(mem, size)
  {
    var framePos, frameSize, readWant := 0, 0, 0;
    if size >= CHAT_LENGTH {
      var i := 0;
      while i < size
        invariant 0 <= i <= size
        invariant framePos == i && frameSize == 0 && readWant == 0
        invariant i > 0 ==> Recognise(mem, size).NotAPackage?
      {
        var found;
        found, frameSize, readWant := IsOnePackage(mem, size, frameSize, readWant);
        if found {
          return Parsed(readWant == 0, framePos, frameSize, readWant);
        }
        framePos := i + 1;
        i := i + 1;
      }
    }
    p := Parsed(false, framePos, frameSize, readWant);
  }

  function ChatGet(mem: seq<byte>, size: nat): (pkg: Option<Package>)
    requires 3 <= |mem| && size <= |mem|
  {
    var p := ChatParse(mem, size);
    if p.found && p.frameSize <= size && p.framePos == 0 && p.readWant == 0
    then Some(Chat(mem[..p.frameSize], (p.frameSize - CHAT_LENGTH) % 0x10000))
    else None
  }

  /** Echo answers for any first byte 0x7E, however many bytes have arrived. */
  function EchoParse(mem: seq<byte>, before: Parsed): (p: Parsed)
    requires 3 <= |mem|
    ensures p.found ==> p.framePos == 0 && p.readWant == 0 && p.frameSize >= ECHO_HEADER
  {
    if mem[0] == 0x7E then Parsed(true, 0, FromBe16(mem[1], mem[2]) + ECHO_HEADER, 0)
    else before.(found := false)
  }

  function EchoGet(mem: seq<byte>, size: nat): (pkg: Option<Package>)
    requires 3 <= |mem| && size <= |mem|
  {
    var p := EchoParse(mem, Parsed(false, 0, 0, 0));
    if p.found && p.frameSize <= size
    then Some(Echo(mem[..p.frameSize], FromBe16(mem[1], mem[2])))
    else None
  }

  datatype Protocol = ChatProtocol | EchoProtocol

  /** First match over the protocols; a protocol that declines may still have written the out-parameters. */
  function MultiParse(protocols: seq<Protocol>, mem: seq<byte>, size: nat, before: Parsed): (p: Parsed)
    requires 3 <= |mem| && size <= |mem|
    ensures p.found ==> p.framePos == 0 && p.readWant == 0 && p.frameSize >= ECHO_HEADER
  {
    if protocols == [] then before.(found := false)
    else
      var p := if protocols[0].ChatProtocol? then ChatParse(mem, size) else EchoParse(mem, before);
      if p.found then p else MultiParse(protocols[1..], mem, size, p)
  }

  function MultiGet(protocols: seq<Protocol>, mem: seq<byte>, size: nat): (pkg: Option<Package>)
    requires 3 <= |mem| && size <= |mem|
  {
    if protocols == [] then None
    else
      var pkg := if protocols[0].ChatProtocol? then ChatGet(mem, size) else EchoGet(mem, size);
      if pkg.Some? then pkg else MultiGet(protocols[1..], mem, size)
  }

  class MultipleProtocol {
    var protocols: seq<Protocol>

    constructor ()
      ensures protocols == []
    {
      protocols := [];
    }

    method AddProtocol(protocol: Protocol)
      modifies this
      ensures protocols == if protocol in old(protocols) then old(protocols) else old(protocols) + [protocol]
    {
      if protocol !in protocols {
        protocols := protocols + [protocol];
      }
    }

    method ParseOnePackage(mem: seq<byte>, size: nat, before: Parsed) returns (p: Parsed)
      requires 3 <= |mem| && size <= |mem|
      ensures p == MultiParse(protocols, mem, size, before)
    {
      p := before.(found := false);
      var i := 0;
      while i < |protocols|
        invariant 0 <= i <= |protocols|
        invariant !p.found
        invariant MultiParse(protocols[i..], mem, size, p) == MultiParse(protocols, mem, size, before)
      {
        assert protocols[i..][0] == protocols[i] && protocols[i..][1..] == protocols[i + 1..];
        match protocols[i] {
          case ChatProtocol => p := ChatParseOnePackage(mem, size);
          case EchoProtocol => p := EchoParse(mem, p);
        }
        if p.found {
          return;
        }
        i := i + 1;
      }
    }

    method GetOnePackage(mem: seq<byte>, size: nat) returns (pkg: Option<Package>)
      requires 3 <= |mem| && size <= |mem|
      ensures pkg == MultiGet(protocols, mem, size)
    {
      pkg := None;
      var i := 0;
      while i < |protocols|
        invariant 0 <= i <= |protocols|
        invariant pkg == None
        invariant MultiGet(protocols[i..], mem, size) == MultiGet(protocols, mem, size)
      {
        assert protocols[i..][0] == protocols[i] && protocols[i..][1..] == protocols[i + 1..];
        match protocols[i] {
          case ChatProtocol => pkg := ChatGet(mem, size);
          case EchoProtocol => pkg := EchoGet(mem, size);
        }
        if pkg.Some? {
          return;
        }
        i := i + 1;
      }
    }
  }
}

/**
 The buffer of base/Buffer.h and base/Buffer.cpp: one array and two indices. A pointer
 into it is an index; where findCRLF returns a null pointer the model returns
 `writerIndex`.
 */
module BufferObject {
  import opened ByteStore
  import BigEndian
  import Text

  class Buffer {
    var buffer: array<char>
    var readerIndex: nat
    var writerIndex: nat

    ghost predicate Valid()
      reads this
    {
      readerIndex <= writerIndex <= buffer.Length && CHEAP_PREPEND <= buffer.Length
    }

    function Contents(): string
      requires Valid()
      reads this, buffer
    {
      buffer[readerIndex..writerIndex]
    }

    ghost function State(): (s: Store)
      requires Valid()
      reads this, buffer
      ensures s.Valid()
    {
      Store(buffer.Length, readerIndex, Contents())
    }

    constructor (initialSize: nat)
      ensures Valid() && fresh(buffer)
      ensures State() == New(initialSize)
    {
      buffer := new char[CHEAP_PREPEND + initialSize];
      readerIndex, writerIndex := CHEAP_PREPEND, CHEAP_PREPEND;
    }

    function ReadableBytes(): nat
      requires Valid()
      reads this
    {
      writerIndex - readerIndex
    }

    function WritableBytes(): nat
      requires Valid()
      reads this
    {
      buffer.Length - writerIndex
    }

    /** The first CRLF at or after the reader, `writerIndex` if there is none. */
    function FindCRLF(): (crlf: nat)
      requires Valid()
      reads this, buffer
      ensures readerIndex <= crlf <= writerIndex
      ensures crlf < writerIndex ==> Text.CrlfAt(Contents(), crlf - readerIndex)
      ensures forall i: nat | i < crlf - readerIndex :: !Text.CrlfAt(Contents(), i)
    {
      readerIndex + Text.FindCrlf(Contents())
    }

    /** The first line feed at or after the reader, `writerIndex` if there is none. */
    function FindEOL(): (eol: nat)
      requires Valid()
      reads this, buffer
      ensures readerIndex <= eol <= writerIndex
      ensures eol < writerIndex ==> buffer[eol] == '\n'
      ensures '\n' !in Contents()[..eol - readerIndex]
    {
      Text.FindNone(Contents(), '\n');
      readerIndex + Text.Find(Contents(), '\n')
    }

    method Swap(that: Buffer)
      requires Valid() && that.Valid()
      modifies this, that
      ensures Valid() && State() == old(that.State()) && buffer == old(that.buffer)
      ensures that.Valid() && that.State() == old(State()) && that.buffer == old(buffer)
    {
      buffer, that.buffer := that.buffer, buffer;
      readerIndex, that.readerIndex := that.readerIndex, readerIndex;
      writerIndex, that.writerIndex := that.writerIndex, writerIndex;
    }

    method RetrieveAll()
      requires Valid()
      modifies this`readerIndex, this`writerIndex
      ensures Valid() && State() == After(old(State()), Op.Retrieve(old(ReadableBytes())))
    {
      readerIndex, writerIndex := CHEAP_PREPEND, CHEAP_PREPEND;
    }

    method Retrieve(len: nat)
      requires Valid() && len <= ReadableBytes()
      modifies this`readerIndex, this`writerIndex
      ensures Valid() && State() == After(old(State()), Op.Retrieve(len))
      ensures Contents() == old(Contents())[len..]
    {
      if len < ReadableBytes() {
        readerIndex := readerIndex + len;
      } else {
        RetrieveAll();
      }
    }

    method RetrieveUntil(end: nat)
      requires Valid() && readerIndex <= end <= writerIndex
      modifies this`readerIndex, this`writerIndex
      ensures Valid() && Contents() == old(Contents())[end - old(readerIndex)..]
    {
      Retrieve(end - readerIndex);
    }

    method RetrieveAsString(len: nat) returns (result: string)
      requires Valid() && len <= ReadableBytes()
      modifies this`readerIndex, this`writerIndex
      ensures Valid() && State() == After(old(State()), Op.Retrieve(len))
      ensures result + Contents() == old(Contents())
    {
      result := buffer[readerIndex..readerIndex + len];
      Retrieve(len);
    }

    method Unwrite(len: nat)
      requires Valid() && len <= ReadableBytes()
      modifies this`writerIndex
      ensures Valid() && State() == After(old(State()), Op.Unwrite(len))
    {
      writerIndex := writerIndex - len;
    }

    /** The caller has put `len` bytes where beginWrite() points. */
    method HasWritten(len: nat)
      requires Valid() && len <= WritableBytes()
      modifies this`writerIndex
      ensures Valid() && State() == After(old(State()), Op.HasWritten(old(buffer[writerIndex..writerIndex + len])))
    {
      writerIndex := writerIndex + len;
    }

    /** Only called when fewer than `len` bytes are writable. */
    method MakeSpace(len: nat)
      requires Valid() && WritableBytes() < len
      modifies this, buffer
      ensures Valid() && State() == AfterEnsure(old(State()), len)
      ensures buffer == old(buffer) || fresh(buffer)
    {
      if WritableBytes() + readerIndex < len + CHEAP_PREPEND {
        Resize(writerIndex + len);
      } else {
        assert CHEAP_PREPEND < readerIndex;
        var readable := ReadableBytes();
        CopyDown(CHEAP_PREPEND);
        readerIndex := CHEAP_PREPEND;
        writerIndex := readerIndex + readable;
      }
    }

    /** std::vector::resize to a larger size. */
    method Resize(size: nat)
      requires Valid() && size >= buffer.Length
      modifies this`buffer
      ensures Valid() && fresh(buffer) && buffer.Length == size
      ensures buffer[..old(buffer.Length)] == old(buffer[..])
    {
      var larger := new char[size];
      forall i | 0 <= i < buffer.Length {
        larger[i] := buffer[i];
      }
      buffer := larger;
    }

    /** std::copy of the readable bytes to a place before them, which they may overlap. */
    method CopyDown(to: nat)
      requires Valid() && to < readerIndex
      modifies buffer
      ensures buffer[to..to + ReadableBytes()] == old(Contents())
    {
      var n := ReadableBytes();
      ghost var was := buffer[..];
      for i := 0 to n
        invariant forall j | to <= j < to + i :: buffer[j] == was[j - to + readerIndex]
        invariant forall j | to + i <= j < buffer.Length :: buffer[j] == was[j]
      {
        buffer[to + i] := buffer[readerIndex + i];
      }
    }

    method EnsureWritableBytes(len: nat)
      requires Valid()
      modifies this, buffer
      ensures Valid() && State() == AfterEnsure(old(State()), len) && WritableBytes() >= len
      ensures buffer == old(buffer) || fresh(buffer)
    {
      if WritableBytes() < len {
        EnsureMakesSpace(State(), len);
        MakeSpace(len);
      }
    }

    /** What goes into the writable area and is then declared with hasWritten. */
    method Fill(data: string)
      requires Valid() && |data| <= WritableBytes()
      modifies this`writerIndex, buffer
      ensures Valid() && State() == old(State()).(bytes := old(Contents()) + data)
    {
      Copy(data, writerIndex);
      writerIndex := writerIndex + |data|;
    }

    method Append(data: string)
      requires Valid()
      modifies this, buffer
      ensures Valid() && State() == AfterAppend(old(State()), data)
      ensures buffer == old(buffer) || fresh(buffer)
      ensures Contents() == old(Contents()) + data
    {
      EnsureWritableBytes(|data|);
      Fill(data);
    }

    /** std::copy from outside the buffer. */
    method Copy(data: string, at: nat)
      requires at + |data| <= buffer.Length
      modifies buffer
      ensures buffer[..] == old(buffer[..at]) + data + old(buffer[at + |data|..])
    {
      forall i | 0 <= i < |data| {
        buffer[at + i] := data[i];
      }
    }

    method AppendString(str: string)
      requires Valid()
      modifies this, buffer
      ensures Valid() && Contents() == old(Contents()) + str
      ensures buffer == old(buffer) || fresh(buffer)
    {
      Append(str);
    }

    method Prepend(data: string)
      requires Valid() && |data| <= readerIndex
      modifies this`readerIndex, buffer
      ensures Valid() && State() == After(old(State()), Op.Prepend(data))
      ensures Contents() == data + old(Contents())
    {
      readerIndex := readerIndex - |data|;
      Copy(data, readerIndex);
    }

    /** appendInt8, appendInt16, appendInt32 and appendInt64, by width in bytes. */
    method AppendInt(x: int, width: nat)
      requires Valid() && width in {1, 2, 4, 8} && BigEndian.Fits(x, width)
      modifies this, buffer
      ensures Valid() && State() == AfterAppend(old(State()), BigEndian.IntBytes(x, width))
      ensures buffer == old(buffer) || fresh(buffer)
    {
      Append(BigEndian.IntBytes(x, width));
    }

    method PrependInt(x: int, width: nat)
      requires Valid() && width in {1, 2, 4, 8} && BigEndian.Fits(x, width) && width <= readerIndex
      modifies this`readerIndex, buffer
      ensures Valid() && State() == After(old(State()), Op.Prepend(BigEndian.IntBytes(x, width)))
      ensures Contents()[..width] == BigEndian.IntBytes(x, width)
    {
      Prepend(BigEndian.IntBytes(x, width));
    }

    function PeekInt(width: nat): int
      requires Valid() && width in {1, 2, 4, 8} && width <= ReadableBytes()
      reads this, buffer
    {
      BigEndian.IntOf(Contents()[..width])
    }

    /** If an integer of that width is what the buffer begins with, it is returned and consumed. */
    method ReadInt(width: nat) returns (result: int)
      requires Valid() && width in {1, 2, 4, 8} && width <= ReadableBytes()
      modifies this`readerIndex, this`writerIndex
      ensures Valid() && Contents() == old(Contents())[width..]
      ensures forall x | BigEndian.Fits(x, width) && BigEndian.IntBytes(x, width) <= old(Contents()) :: result == x
    {
      result := PeekInt(width);
      forall x | BigEndian.Fits(x, width) && BigEndian.IntBytes(x, width) <= Contents()
        ensures result == x
      {
        BigEndian.IntRoundTrip(x, width, "");
        assert Contents()[..width] == BigEndian.IntBytes(x, width);
      }
      Retrieve(width);
    }

    /** `toString` casts the length to int. */
    method ToString() returns (result: string)
      requires Valid() && ReadableBytes() < 0x8000_0000
      ensures result == Contents()
    {
      result := buffer[readerIndex..writerIndex];
    }

    /** The `other` of `shrink`, before it is swapped in. */
    static method Rebuilt(readable: string, reserve: nat) returns (other: Buffer)
      ensures fresh(other) && fresh(other.buffer) && other.Valid()
      ensures other.State() == AfterAppend(AfterEnsure(New(INITIAL_SIZE), |readable| + reserve), readable)
    {
      hide AfterEnsure, AfterAppend, New;
      other := new Buffer(INITIAL_SIZE);
      other.EnsureWritableBytes(|readable| + reserve);
      other.Append(readable);
    }

    method Shrink(reserve: nat)
      requires Valid() && ReadableBytes() < 0x8000_0000
      modifies this
      ensures Valid() && fresh(buffer) && State() == After(old(State()), Op.Shrink(reserve))
    {
      ShrinkIsRebuilding(State(), reserve);
      hide After, AfterEnsure, AfterAppend, New;
      var readable := ToString();
      var other := Rebuilt(readable, reserve);
      Swap(other);
    }

    /** Takes in what readv delivered, first to the writable area and then to the extra buffer. */
    method TakeIn(data: string)
      requires Valid() && Enabled(State(), Op.ReadFd(data))
      modifies this, buffer
      ensures Valid() && State() == After(old(State()), Op.ReadFd(data))
      ensures Contents() == old(Contents()) + data
      ensures buffer == old(buffer) || fresh(buffer)
    {
      hide AfterAppend;
      var writable := WritableBytes();
      if |data| <= writable {
        Fill(data);
      } else {
        Fill(data[..writable]);
        Append(data[writable..]);
        assert old(Contents()) + data[..writable] + data[writable..] == old(Contents()) + data;
      }
    }

    /** A readv either fails, with an error number, or delivers `data`, as much as its two areas can hold. */
    method ReadFd(failed: bool, errno: int, data: string, savedErrno: int) returns (n: int, savedErrno': int)
      requires Valid() && (!failed ==> Enabled(State(), Op.ReadFd(data)))
      modifies this, buffer
      ensures Valid() && (buffer == old(buffer) || fresh(buffer))
      ensures failed ==> n < 0 && savedErrno' == errno && State() == old(State())
      ensures !failed ==> n == |data| && savedErrno' == savedErrno && State() == After(old(State()), Op.ReadFd(data))
      ensures !failed ==> Contents() == old(Contents()) + data
    {
      hide After;
      if failed {
        n, savedErrno' := -1, errno;
      } else {
        TakeIn(data);
        n, savedErrno' := |data|, savedErrno;
      }
    }
  }
}

/** Model of src/brickred/dynamic_buffer.cc: a growable byte buffer with a read and a write index,
    whose sizes are 64-bit and wrap around. */
module Buffers {
  import opened Bytes

  /** 64-bit unsigned arithmetic. */
  function Wrap(x: int): (r: nat)
    ensures r < SIZE_LIMIT
  {
    x % SIZE_LIMIT
  }

  /** The capacity computed by reserveWritableBytes, every operation wrapping at 64 bits. */
  function NewCapacity(capacity: nat, freeBytes: nat, size: nat, expand: nat): (r: nat)
    requires expand > 0
  {
    if freeBytes >= size && freeBytes - size < expand then
      Wrap(capacity + expand)
    else
      Wrap(capacity + Wrap(Steps(Wrap(size - freeBytes), expand)))
  }

  /** The least multiple of `expand` above d. */
  function Steps(d: nat, expand: nat): (r: nat)
    requires expand > 0
  {
    expand * (d / expand + 1)
  }

  lemma StepsBounds(d: nat, expand: nat)
    requires expand > 0
    ensures d < Steps(d, expand) <= d + expand
  {
    assert d == expand * (d / expand) + d % expand;
  }

  lemma WrapOnce(x: int)
    ensures 0 <= x < SIZE_LIMIT ==> Wrap(x) == x
    ensures SIZE_LIMIT <= x < 2 * SIZE_LIMIT ==> Wrap(x) == x - SIZE_LIMIT
    ensures -SIZE_LIMIT <= x < 0 ==> Wrap(x) == x + SIZE_LIMIT
  {}

  /** The new capacity holds the readable bytes plus the requested room and a spare byte, with less than two
      expand steps of slack, although `size - freeBytes` wraps when the buffer has room to spare. */
  lemma NewCapacityBounds(capacity: nat, readable: nat, size: nat, expand: nat)
    requires expand > 0 && readable <= capacity < SIZE_LIMIT && size < SIZE_LIMIT
    requires readable + size + 2 * expand <= SIZE_LIMIT
    ensures readable + size < NewCapacity(capacity, capacity - readable, size, expand)
                            < readable + size + 2 * expand
  {
    hide Wrap, Steps;
    var free := capacity - readable;
    if free >= size && free - size < expand {
      WrapOnce(capacity + expand);
    } else {
      // when free >= size the subtraction wraps, and the buffer shrinks by free - size before it regains
      // at most one step
      WrapOnce(size - free);
      var d := Wrap(size - free);
      StepsBounds(d, expand);
      WrapOnce(Steps(d, expand));
      WrapOnce(capacity + Wrap(Steps(d, expand)));
    }
  }

  /** The two-branch growth can make the buffer smaller than it was. */
  lemma ReserveCanShrink()
    ensures NewCapacity(10000, 9000, 2000, 1024) == 3856
  {
    assert Wrap(2000 - 9000) == SIZE_LIMIT - 7000;
    assert (SIZE_LIMIT - 7000) / 1024 + 1 == 0x40_0000_0000_0000 - 6;
  }

  /** The sizes of a buffer without its bytes. */
  datatype Layout = Layout(capacity: nat, readIndex: nat, writeIndex: nat, expand: nat) {
    predicate Ok() { readIndex <= writeIndex <= capacity < SIZE_LIMIT && 0 < expand < SIZE_LIMIT }

    function Readable(): int { writeIndex - readIndex }

    function Room(): int { capacity - writeIndex }

    /** The sizes after reserveWritableBytes. */
    function Reserved(size: nat): (l: Layout)
      requires Ok()
    {
      if Room() >= size then this
      else Layout(NewCapacity(capacity, capacity - Readable(), size, expand), 0, Readable(), expand)
    }

    /** The sizes after storing and publishing n bytes. */
    function Filled(n: nat): (l: Layout) {
      this.(writeIndex := writeIndex + n)
    }
  }

  /** Reserving keeps the readable bytes, makes room, and leaves a spare byte whenever it reallocates. */
  lemma ReservedRoom(l: Layout, size: nat)
    requires l.Ok() && l.Readable() + size + 2 * l.expand < SIZE_LIMIT
    ensures var r := l.Reserved(size);
            && r.Ok() && r.Readable() == l.Readable() && r.expand == l.expand
            && r.Room() >= size
            && (r.Room() == size <==> l.Room() == size)
  {
    if l.Room() < size {
      NewCapacityBounds(l.capacity, l.Readable(), size, l.expand);
    }
  }

  class DynamicBuffer {
    var data: array<Byte>
    var expandSize: nat
    var readIndex: nat
    var writeIndex: nat

    ghost predicate Valid()
      reads this
    {
      readIndex <= writeIndex <= data.Length < SIZE_LIMIT && expandSize < SIZE_LIMIT
    }

    /** The readable bytes. */
    function Contents(): (s: seq<Byte>)
      requires Valid()
      reads this, data
      ensures |s| == ReadableBytes()
    {
      data[readIndex..writeIndex]
    }

    function ReadableBytes(): nat
      requires Valid()
      reads this
    {
      writeIndex - readIndex
    }

    function WritableBytes(): nat
      requires Valid()
      reads this
    {
      data.Length - writeIndex
    }

    function Sizes(): Layout
      requires Valid()
      reads this
    {
      Layout(data.Length, readIndex, writeIndex, expandSize)
    }

    constructor (initSize: nat, expand: nat)
      requires initSize < SIZE_LIMIT && expand < SIZE_LIMIT
      ensures Valid() && Contents() == [] && fresh(data)
      ensures data.Length == initSize && expandSize == expand
    {
      data := new Byte[initSize];
      expandSize, readIndex, writeIndex := expand, 0, 0;
    }

    method Clear()
      requires Valid()
      modifies this`readIndex, this`writeIndex
      ensures Valid() && Contents() == [] && readIndex == 0
    {
      readIndex, writeIndex := 0, 0;
    }

    method Swap(other: DynamicBuffer)
      requires Valid() && other.Valid()
      modifies this, other
      ensures Valid() && other.Valid()
      ensures data == old(other.data) && other.data == old(data)
      ensures Sizes() == old(other.Sizes()) && other.Sizes() == old(Sizes())
      ensures Contents() == old(other.Contents()) && other.Contents() == old(Contents())
    {
      data, other.data := other.data, data;
      expandSize, other.expandSize := other.expandSize, expandSize;
      readIndex, other.readIndex := other.readIndex, readIndex;
      writeIndex, other.writeIndex := other.writeIndex, writeIndex;
    }

    /** Consumes readable bytes; an emptied buffer rewinds its indices. */
    method Read(size: nat)
      requires Valid()
      modifies this`readIndex, this`writeIndex
      ensures Valid()
      ensures Contents() == old(Contents()[if size <= ReadableBytes() then size else ReadableBytes()..])
      ensures Contents() == [] ==> readIndex == writeIndex == 0
    {
      readIndex := readIndex + if size <= ReadableBytes() then size else ReadableBytes();
      if readIndex == writeIndex {
        Clear();
      }
    }

    /** Turns already stored bytes into readable ones. */
    method Write(size: nat)
      requires Valid()
      modifies this`writeIndex
      ensures Valid()
      ensures writeIndex == old(writeIndex) + if size <= old(WritableBytes()) then size else old(WritableBytes())
      ensures Contents() == old(Contents()) + data[old(writeIndex)..writeIndex]
    {
      writeIndex := writeIndex + if size <= WritableBytes() then size else WritableBytes();
    }

    method ReserveWritableBytes(size: nat)
      requires Valid()
      requires WritableBytes() < size ==> expandSize > 0 && ReadableBytes() + size + 2 * expandSize < SIZE_LIMIT
      modifies this`data, this`readIndex, this`writeIndex
      ensures Valid() && WritableBytes() >= size
      ensures Contents() == old(Contents())
      ensures data == old(data) || fresh(data)
      ensures old(WritableBytes()) >= size ==> data == old(data) && writeIndex == old(writeIndex)
      ensures old(WritableBytes()) < size ==> WritableBytes() < size + 2 * expandSize && readIndex == 0
      ensures expandSize > 0 ==> Sizes() == old(Sizes()).Reserved(size)
    {
      if WritableBytes() >= size {
        return;
      }
      NewCapacityBounds(data.Length, ReadableBytes(), size, expandSize);
      var newSize := NewCapacity(data.Length, readIndex + WritableBytes(), size, expandSize);
      var readable := ReadableBytes();
      var newData := new Byte[newSize];
      forall i | 0 <= i < readable {
        newData[i] := data[readIndex + i];
      }
      data, readIndex, writeIndex := newData, 0, readable;
    }

    /** memcpy to writeBegin(): stores bytes after the readable ones without making them readable. */
    method Store(src: seq<Byte>)
      requires Valid() && |src| <= WritableBytes()
      modifies data
      ensures Contents() == old(Contents())
      ensures data[writeIndex..writeIndex + |src|] == src
    {
      forall i | 0 <= i < |src| {
        data[writeIndex + i] := src[i];
      }
    }

    /** The masking loops: XORs the next n stored bytes with a cycled four-byte key. */
    method MaskStored(key: seq<Byte>, n: nat)
      requires Valid() && |key| == 4 && n <= WritableBytes()
      modifies data
      ensures Contents() == old(Contents())
      ensures data[writeIndex..writeIndex + n] == Mask(key, old(data[writeIndex..writeIndex + n]))
    {
      hide Xor;
      ghost var plain := data[writeIndex..writeIndex + n];
      for i := 0 to n
        invariant forall j :: 0 <= j < writeIndex ==> data[j] == old(data[j])
        invariant forall j :: 0 <= j < i ==> data[writeIndex + j] == Xor(plain[j], key[j % 4])
        invariant forall j :: i <= j < n ==> data[writeIndex + j] == plain[j]
      {
        data[writeIndex + i] := Xor(data[writeIndex + i], key[i % 4]);
      }
    }

    /** Reserve, copy, mask in place, write. */
    method AppendMasked(key: seq<Byte>, src: seq<Byte>)
      requires Valid() && |key| == 4
      requires WritableBytes() < |src| ==> expandSize > 0 && ReadableBytes() + |src| + 2 * expandSize < SIZE_LIMIT
      modifies this`data, this`readIndex, this`writeIndex, data
      ensures Valid() && (data == old(data) || fresh(data))
      ensures Contents() == old(Contents()) + Mask(key, src)
    {
      hide Mask;
      ReserveWritableBytes(|src|);
      Store(src);
      MaskStored(key, |src|);
      Write(|src|);
    }

    /** The idiom used by every producer: reserve, copy, write. */
    method Append(src: seq<Byte>)
      requires Valid()
      requires WritableBytes() < |src| ==> expandSize > 0 && ReadableBytes() + |src| + 2 * expandSize < SIZE_LIMIT
      modifies this`data, this`readIndex, this`writeIndex, data
      ensures Valid() && (data == old(data) || fresh(data))
      ensures Contents() == old(Contents()) + src
    {
      ReserveWritableBytes(|src|);
      Store(src);
      Write(|src|);
    }

    /** snprintf to writeBegin() followed by write(count): a text that fits exactly loses its last byte to
        the terminator. */
    method Print(text: seq<Byte>)
      requires Valid() && |text| <= WritableBytes()
      modifies data, this`writeIndex
      ensures Valid() && Contents() == old(Contents()) + Printed(old(WritableBytes()), text)
      ensures expandSize > 0 ==> Sizes() == old(Sizes()).Filled(|text|)
    {
      Store(Printed(WritableBytes(), text));
      Write(|text|);
    }

    /** A peek of n bytes stays inside the buffer: its check wraps around with the offset, and a wrapped end that
        passes it would be read far outside. */
    predicate Peekable(offset: nat, n: nat)
      requires Valid()
      reads this
    {
      offset < SIZE_LIMIT && (offset + n < SIZE_LIMIT || ReadableBytes() < Wrap(offset + n))
    }

    method PeekInt16(offset: nat) returns (ok: bool, v: nat)
      requires Valid() && Peekable(offset, 2)
      ensures ok == (offset + 2 <= ReadableBytes())
      ensures ok ==> v == BigEndian(Contents()[offset..offset + 2])
    {
      ok, v := false, 0;
      if ReadableBytes() < Wrap(offset + 2) {
        return;
      }
      var p := readIndex + offset;
      ok, v := true, data[p + 1] as int + data[p] as int * 0x100;
      assert Contents()[offset] == data[p];
      BigEndianTwo(Contents()[offset..offset + 2]);
    }

    method PeekInt64(offset: nat) returns (ok: bool, v: nat)
      requires Valid() && Peekable(offset, 8)
      ensures ok == (offset + 8 <= ReadableBytes())
      ensures ok ==> v == BigEndian(Contents()[offset..offset + 8])
    {
      ok, v := false, 0;
      if ReadableBytes() < Wrap(offset + 8) {
        return;
      }
      var p := readIndex + offset;
      ok := true;
      v := data[p + 7] as int + data[p + 6] as int * 0x100 + data[p + 5] as int * 0x1_0000
           + data[p + 4] as int * 0x100_0000
           + data[p + 3] as int * 0x1_0000_0000 + data[p + 2] as int * 0x100_0000_0000
           + data[p + 1] as int * 0x1_0000_0000_0000 + data[p] as int * 0x100_0000_0000_0000;
      BigEndianEight(Contents()[offset..offset + 8]);
    }

    method WriteInt16(v: nat)
      requires Valid() && v < 0x1_0000
      requires WritableBytes() < 2 ==> expandSize > 0 && ReadableBytes() + 2 + 2 * expandSize < SIZE_LIMIT
      modifies this`data, this`readIndex, this`writeIndex, data
      ensures Valid() && (data == old(data) || fresh(data))
      ensures Contents() == old(Contents()) + ToBigEndian(v, 2)
    {
      ToBigEndianTwo(v);
      Append([v / 0x100, v % 0x100]);
    }

    method WriteInt64(v: nat)
      requires Valid() && v < SIZE_LIMIT
      requires WritableBytes() < 8 ==> expandSize > 0 && ReadableBytes() + 8 + 2 * expandSize < SIZE_LIMIT
      modifies this`data, this`readIndex, this`writeIndex, data
      ensures Valid() && (data == old(data) || fresh(data))
      ensures Contents() == old(Contents()) + ToBigEndian(v, 8)
    {
      ToBigEndianEight(v);
      Append([v / 0x100_0000_0000_0000 % 0x100, v / 0x1_0000_0000_0000 % 0x100, v / 0x100_0000_0000 % 0x100,
              v / 0x1_0000_0000 % 0x100, v / 0x100_0000 % 0x100, v / 0x1_0000 % 0x100, v / 0x100 % 0x100,
              v % 0x100]);
    }
  }

  /** What `snprintf(p, room, "%s", text)` leaves in the first |text| bytes, for a text that needs at most
      the whole room. */
  function Printed(room: nat, text: seq<Byte>): (r: seq<Byte>)
    requires |text| <= room
    ensures |r| == |text|
  {
    if |text| < room || text == [] then text else text[..|text| - 1] + [0]
  }

  lemma BigEndianTwo(s: seq<Byte>)
    requires |s| == 2
    ensures BigEndian(s) == s[1] as int + s[0] as int * 0x100
  {
    assert s[..1][..0] == [];
    assert BigEndian(s[..1]) == s[0];
  }

  lemma BigEndianStep(s: seq<Byte>, k: nat)
    requires k < |s|
    ensures BigEndian(s[..k + 1]) == BigEndian(s[..k]) * 256 + s[k]
  {
    assert s[..k + 1][..k] == s[..k];
  }

  lemma BigEndianFour(s: seq<Byte>)
    requires |s| == 8
    ensures BigEndian(s[..4]) == s[3] as int + s[2] as int * 0x100 + s[1] as int * 0x1_0000 + s[0] as int * 0x100_0000
  {
    assert s[..0] == [] && BigEndian([]) == 0;
    hide BigEndian;
    BigEndianStep(s, 0); BigEndianStep(s, 1); BigEndianStep(s, 2); BigEndianStep(s, 3);
  }

  lemma BigEndianEight(s: seq<Byte>)
    requires |s| == 8
    ensures BigEndian(s) ==
            s[7] as int + s[6] as int * 0x100 + s[5] as int * 0x1_0000 + s[4] as int * 0x100_0000
            + s[3] as int * 0x1_0000_0000 + s[2] as int * 0x100_0000_0000
            + s[1] as int * 0x1_0000_0000_0000 + s[0] as int * 0x100_0000_0000_0000
  {
    hide BigEndian;
    BigEndianFour(s);
    BigEndianStep(s, 4); BigEndianStep(s, 5); BigEndianStep(s, 6); BigEndianStep(s, 7);
    assert s[..8] == s;
  }

  lemma ToBigEndianTwo(v: nat)
    requires v < 0x1_0000
    ensures ToBigEndian(v, 2) == [v / 0x100, v % 0x100]
  {
    assert ToBigEndian(v / 256, 1) == ToBigEndian(v / 256 / 256, 0) + [v / 256 % 256];
  }

  lemma ToBigEndianEight(v: nat)
    requires v < SIZE_LIMIT
    ensures ToBigEndian(v, 8) ==
            [v / 0x100_0000_0000_0000 % 0x100, v / 0x1_0000_0000_0000 % 0x100, v / 0x100_0000_0000 % 0x100,
             v / 0x1_0000_0000 % 0x100, v / 0x100_0000 % 0x100, v / 0x1_0000 % 0x100, v / 0x100 % 0x100,
             v % 0x100]
  {
    var v1 := v / 256; var v2 := v1 / 256; var v3 := v2 / 256; var v4 := v3 / 256;
    var v5 := v4 / 256; var v6 := v5 / 256; var v7 := v6 / 256;
    assert v2 == v / 0x1_0000 && v3 == v / 0x100_0000 && v4 == v / 0x1_0000_0000;
    assert v5 == v / 0x100_0000_0000 && v6 == v / 0x1_0000_0000_0000 && v7 == v / 0x100_0000_0000_0000;
    assert ToBigEndian(v7, 1) == ToBigEndian(v7 / 256, 0) + [v7 % 256];
    assert ToBigEndian(v6, 2) == [v7 % 256, v6 % 256];
    assert ToBigEndian(v5, 3) == [v7 % 256, v6 % 256, v5 % 256];
    assert ToBigEndian(v4, 4) == [v7 % 256, v6 % 256, v5 % 256, v4 % 256];
    assert ToBigEndian(v3, 5) == [v7 % 256, v6 % 256, v5 % 256, v4 % 256, v3 % 256];
    assert ToBigEndian(v2, 6) == [v7 % 256, v6 % 256, v5 % 256, v4 % 256, v3 % 256, v2 % 256];
    assert ToBigEndian(v1, 7) == [v7 % 256, v6 % 256, v5 % 256, v4 % 256, v3 % 256, v2 % 256, v1 % 256];
  }
}

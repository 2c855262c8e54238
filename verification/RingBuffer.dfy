/** The ring buffer of ringbuffer.h, used by one thread. */
module RingBuffer {
  import opened Bits
  import opened Modulo

  const DEFAULT_SIZE := 32768
  const WORD_BITS := 32

  // ----- indices: they run through twice the buffer

  /** x modulo 2 * n, for x below 4 * n. */
  function Wrap(x: nat, n: nat): nat {
    if x < 2 * n then x else x - 2 * n
  }

  /** x modulo n, for x below 3 * n. */
  function Slot(x: nat, n: nat): nat {
    if x < n then x else if x < 2 * n then x - n else x - 2 * n
  }

  lemma SameSlot(r: nat, count: nat, i: nat, n: nat)
    requires r < 2 * n && count + i < n
    ensures Slot(Wrap(r + count, n) + i, n) == Slot(r + (count + i), n)
  {
  }

  /** index & smallMask */
  lemma SmallMaskIsSlot(x: nat, bits: nat)
    requires x < 3 * Pow2(bits)
    ensures And(x, Pow2(bits) - 1) == Slot(x, Pow2(bits)) < Pow2(bits)
  {
    var n := Pow2(bits);
    MaskIsRemainder(x, bits);
    if x < n {
      Unique(x, n, 0, x);
    } else if x < 2 * n {
      Unique(x, n, 1, x - n);
    } else {
      Unique(x, n, 2, x - 2 * n);
    }
  }

  /** index & bigMask */
  lemma BigMaskIsWrap(x: nat, bits: nat)
    requires x < 4 * Pow2(bits)
    ensures And(x, Pow2(bits + 1) - 1) == Wrap(x, Pow2(bits)) < 2 * Pow2(bits)
  {
    var m := Pow2(bits + 1);
    MaskIsRemainder(x, bits + 1);
    if x < m {
      Unique(x, m, 0, x);
    } else {
      Unique(x, m, 1, x - m);
    }
  }

  /** (writeIndex - readIndex) & bigMask, in words of the given width: what has been written and not read. */
  lemma MaskedFill(r: nat, w: nat, fill: nat, bits: nat, width: nat)
    requires bits < width && fill <= Pow2(bits) && r < 2 * Pow2(bits) && w == Wrap(r + fill, Pow2(bits))
    ensures And((w - r) % Pow2(width), Pow2(bits + 1) - 1) == fill
  {
    var m := Pow2(bits + 1);
    Pow2Monotone(bits + 1, width);
    MaskedDifference(w, r, bits + 1, width);
    if r + fill < m {
      Unique(w - r, m, 0, fill);
    } else {
      Unique(w - r, m, -1, fill);
    }
  }

  lemma {:induction false} Pow2Monotone(a: nat, b: nat)
    requires a <= b
    ensures Pow2(a) <= Pow2(b)
    decreases b
  {
    if a < b {
      Pow2Monotone(a, b - 1);
    }
  }

  ghost function ExponentOf(c: nat): (k: nat)
    ensures PowerOfTwo(c) ==> c == Pow2(k)
    ensures !PowerOfTwo(c) ==> k == 15
  {
    if PowerOfTwo(c) then var k: nat :| c == Pow2(k); k else 15
  }

  lemma PowersOfTwo()
    ensures Pow2(15) == DEFAULT_SIZE && Pow2(31) == 0x8000_0000 && Pow2(32) == 0x1_0000_0000
  {
    assert Pow2(10) == 1024;
    assert Pow2(20) == 1048576;
    assert Pow2(30) == 1073741824;
  }

  lemma ExponentIsSmall(c: nat, k: nat)
    requires k == ExponentOf(c) && c < 0x1_0000_0000
    ensures k < WORD_BITS && Pow2(k) == (if PowerOfTwo(c) then c else DEFAULT_SIZE) <= 0x8000_0000
    ensures Pow2(k + 1) == 2 * Pow2(k)
  {
    PowersOfTwo();
    if k >= WORD_BITS {
      Pow2Monotone(WORD_BITS, k);
    } else {
      Pow2Monotone(k, 31);
    }
  }

  /** The test of the constructor, in 32 bits. */
  lemma CountTest(c: nat)
    requires c < 0x1_0000_0000
    ensures And((c - 1) % 0x1_0000_0000, c) == 0 <==> c == 0 || PowerOfTwo(c)
  {
    if c == 0 {
      AndZero((c - 1) % 0x1_0000_0000);
    } else {
      PowerTest(c);
    }
  }

  method IsRefused(elementCount: nat) returns (refused: bool)
    requires elementCount < 0x1_0000_0000
    ensures refused <==> elementCount != 0 && !PowerOfTwo(elementCount)
  {
    CountTest(elementCount);
    refused := And((elementCount - 1) % 0x1_0000_0000, elementCount) != 0;
  }

  /** x as a uint32_t */
  method Word(x: int) returns (w: nat)
    ensures w == x % 0x1_0000_0000
    ensures 0 <= x < 0x1_0000_0000 ==> w == x
  {
    w := x % 0x1_0000_0000;
  }

  /** The sizes and masks, in 32 bits. */
  method Sizes(elementCount: nat) returns (count: nat, small: nat, big: nat, ghost k: nat)
    requires elementCount < 0x1_0000_0000
    ensures count == if elementCount == 0 || PowerOfTwo(elementCount) then elementCount else DEFAULT_SIZE
    ensures elementCount > 0 ==>
              k < WORD_BITS && count == Pow2(k) && small == Pow2(k) - 1 && big == Pow2(k + 1) - 1
  {
    count := elementCount;
    var refused := IsRefused(elementCount);
    if refused {
      count := 2 * 16384;
    }
    k := ExponentOf(elementCount);
    ExponentIsSmall(elementCount, k);
    small := Word(count - 1);
    big := Word(2 * count - 1);
  }

  class RingBuffer<T> {
    /** 32: the width of uint32_t. */
    const wordBits: nat
    const bufferSize: nat
    const smallMask: nat
    const bigMask: nat
    const buffer: array<T>
    var writeIndex: nat
    var readIndex: nat
    /** The elements put in and not yet got out. */
    ghost var contents: seq<T>
    ghost const bits: nat

    ghost predicate Shape()
      reads this
    {
      && bits < wordBits && bufferSize == Pow2(bits) == buffer.Length
      && smallMask == Pow2(bits) - 1 && bigMask == Pow2(bits + 1) - 1
      && writeIndex < 2 * bufferSize && readIndex < 2 * bufferSize
    }

    ghost predicate Element(i: int)
      requires 0 <= i < |contents| <= buffer.Length && readIndex < 2 * buffer.Length
      reads `readIndex, `contents, buffer
    {
      buffer[Slot(readIndex + i, buffer.Length)] == contents[i]
    }

    ghost predicate Elements()
      requires |contents| <= buffer.Length && readIndex < 2 * buffer.Length
      reads `readIndex, `contents, buffer
    {
      forall i {:trigger Element(i)} :: 0 <= i < |contents| ==> Element(i)
    }

    ghost predicate Valid()
      reads this, buffer
    {
      Shape() && |contents| <= bufferSize && writeIndex == Wrap(readIndex + |contents|, bufferSize) && Elements()
    }

    /** A count that is not a power of two is replaced by 32768; but 0 passes the test, and that buffer is of no use. */
    constructor (elementCount: nat, z: T)
      requires elementCount < 0x1_0000_0000
      ensures bufferSize == (if elementCount == 0 || PowerOfTwo(elementCount) then elementCount else DEFAULT_SIZE)
      ensures buffer.Length == bufferSize && fresh(buffer) && readIndex == writeIndex == 0 && contents == []
      ensures Valid() <==> elementCount > 0
    {
      var count, small, big;
      ghost var k;
      count, small, big, k := Sizes(elementCount);
      wordBits := WORD_BITS;
      bufferSize, smallMask, bigMask := count, small, big;
      buffer := new T[count](_ => z);
      writeIndex, readIndex := 0, 0;
      contents, bits := [], k;
    }

    /** GetRingBufferReadAvailable: 32-bit subtraction and a mask. */
    function Available(): nat
      reads this
    {
      And((writeIndex - readIndex) % Pow2(wordBits), bigMask)
    }

    lemma AvailableIsSize()
      requires Valid()
      ensures Available() == |contents|
    {
      MaskedFill(readIndex, writeIndex, |contents|, bits, wordBits);
    }

    // ----- copying

    /** The two memcpy calls that fill the regions from index on. */
    method CopyIn(index: nat, data: seq<T>)
      requires index < buffer.Length && |data| <= buffer.Length
      modifies buffer
      ensures forall i :: 0 <= i < |data| ==> buffer[Slot(index + i, buffer.Length)] == data[i]
      ensures forall p ::
                0 <= p < buffer.Length && !(index <= p < index + |data| || p + buffer.Length < index + |data|) ==>
                buffer[p] == old(buffer[p])
    {
      var first := if index + |data| > buffer.Length then buffer.Length - index else |data|;
      CopyTo(index, data[..first]);
      if first < |data| {
        CopyTo(0, data[first..]);
      }
    }

    /** memcpy */
    method CopyTo(at: nat, data: seq<T>)
      requires at + |data| <= buffer.Length
      modifies buffer
      ensures forall i :: 0 <= i < |data| ==> buffer[at + i] == data[i]
      ensures forall p :: 0 <= p < buffer.Length && !(at <= p < at + |data|) ==> buffer[p] == old(buffer[p])
    {
      var i := 0;
      while i < |data|
        invariant 0 <= i <= |data|
        invariant forall k :: 0 <= k < i ==> buffer[at + k] == data[k]
        invariant forall p :: 0 <= p < buffer.Length && !(at <= p < at + i) ==> buffer[p] == old(buffer[p])
      {
        buffer[at + i] := data[i];
        i := i + 1;
      }
    }

    /** The two memcpy calls that read the regions from index on. */
    method CopyOut(index: nat, count: nat) returns (data: seq<T>)
      requires index < buffer.Length && count <= buffer.Length
      ensures |data| == count && forall i :: 0 <= i < count ==> data[i] == buffer[Slot(index + i, buffer.Length)]
    {
      if index + count > buffer.Length {
        var first := buffer.Length - index;
        data := buffer[index..] + buffer[..count - first];
      } else {
        data := buffer[index..index + count];
      }
    }

    // ----- writing

    /** putDataIntoBuffer: as much of the data as there is room for. */
    method PutDataIntoBuffer(data: seq<T>) returns (numWritten: nat)
      requires Valid()
      modifies `writeIndex, `contents, buffer
      ensures Valid()
      ensures numWritten == if |data| <= bufferSize - |old(contents)| then |data| else bufferSize - |old(contents)|
      ensures contents == old(contents) + data[..numWritten]
    {
      var index;
      numWritten, index := GetWriteRegion(|data|);
      Store(index, data[..numWritten]);
      AdvanceWriteIndex(numWritten);
    }

    /** GetRingBufferWriteRegions: how many elements may be written, and where the first of them goes. */
    method GetWriteRegion(elementCount: nat) returns (granted: nat, index: nat)
      requires Valid()
      ensures granted == if elementCount <= bufferSize - |contents| then elementCount else bufferSize - |contents|
      ensures index == Slot(readIndex + |contents|, bufferSize) < bufferSize
    {
      AvailableIsSize();
      var available := bufferSize - Available();
      granted := if elementCount > available then available else elementCount;
      index := And(writeIndex, smallMask);
      SmallMaskIsSlot(writeIndex, bits);
    }

    /** The regions are filled. */
    method Store(index: nat, data: seq<T>)
      requires Shape() && |contents| + |data| <= bufferSize && Elements()
      requires index == Slot(readIndex + |contents|, bufferSize) < bufferSize
      modifies `contents, buffer
      ensures contents == old(contents) + data && Elements()
    {
      CopyIn(index, data);
      ghost var fill := |contents|;
      contents := contents + data;
      forall i | 0 <= i < |contents|
        ensures Element(i)
      {
        if i < fill {
          assert old(Element(i));
        } else {
          assert Slot(readIndex + i, bufferSize) == Slot(index + (i - fill), bufferSize);
        }
      }
    }

    /** x & bigMask */
    method Masked(x: nat) returns (r: nat)
      requires Shape() && x < 4 * bufferSize
      ensures r == Wrap(x, bufferSize) < 2 * bufferSize
    {
      BigMaskIsWrap(x, bits);
      r := And(x, bigMask);
    }

    method AdvanceWriteIndex(count: nat)
      requires Shape() && count <= |contents| <= bufferSize && Elements()
      requires writeIndex == Wrap(readIndex + (|contents| - count), bufferSize)
      modifies `writeIndex
      ensures Valid()
    {
      writeIndex := Masked(writeIndex + count);
    }

    // ----- reading

    /** getDataFromBuffer: as many of the oldest elements as there are. */
    method GetDataFromBuffer(elementCount: nat) returns (data: seq<T>)
      requires Valid()
      modifies `readIndex, `contents
      ensures Valid() && |data| == if elementCount <= |old(contents)| then elementCount else |old(contents)|
      ensures old(contents) == data + contents
    {
      data := PeekBuffer(elementCount);
      AdvanceReadIndex(|data|);
    }

    /** peekBuffer */
    method PeekBuffer(elementCount: nat) returns (data: seq<T>)
      requires Valid()
      ensures data == contents[..if elementCount <= |contents| then elementCount else |contents|]
    {
      AvailableIsSize();
      var count := if elementCount > Available() then Available() else elementCount;
      var index := And(readIndex, smallMask);
      SmallMaskIsSlot(readIndex, bits);
      data := CopyOut(index, count);
      forall i | 0 <= i < count
        ensures data[i] == contents[i]
      {
        assert Element(i);
        assert Slot(readIndex + i, bufferSize) == Slot(index + i, bufferSize);
      }
    }

    /** AdvanceRingBufferReadIndex, by what has been read. */
    method AdvanceReadIndex(count: nat)
      requires Valid() && count <= |contents|
      modifies `readIndex, `contents
      ensures Valid() && contents == old(contents[count..])
    {
      readIndex := Masked(readIndex + count);
      contents := contents[count..];
      forall i | 0 <= i < |contents|
        ensures Element(i)
      {
        assert old(Element(count + i));
        SameSlot(old(readIndex), count, i, bufferSize);
      }
    }

    /** skipDataInBuffer, when nobody writes meanwhile. */
    method SkipDataInBuffer(nValues: nat) returns (skipped: nat)
      requires Valid()
      modifies `readIndex, `contents
      ensures Valid() && skipped == if nValues <= |old(contents)| then nValues else |old(contents)|
      ensures contents == old(contents)[skipped..]
    {
      AvailableIsSize();
      skipped := nValues;
      if nValues > Available() {
        skipped := Available();
      }
      AdvanceReadIndex(skipped);
    }

    /** FlushRingBuffer */
    method FlushRingBuffer()
      requires Valid()
      modifies `readIndex, `writeIndex, `contents
      ensures Valid() && contents == []
    {
      writeIndex, readIndex, contents := 0, 0, [];
    }
  }
}

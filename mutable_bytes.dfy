/**
 * MutableBytes: a fixed-length byte buffer whose mutators write into the one
 * array it owns and return the same instance. The array is a `const` field,
 * so no mutator can replace it, and a Dafny array's length never changes;
 * every mutator names only that array's elements in its `modifies` clause
 * (secureWipe also advances the generator it is given).
 */
module MutableBuffer {
  import opened Wrappers
  import opened ByteOps

  /** The byte order tag handed to the constructor; no mutator reads it. */
  datatype ByteOrder = BigEndian | LittleEndian

  /**
   * Stand-in for java.security.SecureRandom. Its output is not modelled: it is
   * an arbitrary stream fixed when the generator is made, of which nextBytes
   * hands out the next bytes.
   */
  class SecureRandom {
    var upcoming: ByteStream

    constructor (entropy: ByteStream)
      ensures upcoming == entropy
    {
      upcoming := entropy;
    }

    /** Fills all of `bytes` with the generator's next output and moves past it. */
    method NextBytes(bytes: array<byte>)
      modifies this, bytes
      ensures bytes[..] == Drawn(old(upcoming), bytes.Length)
      ensures upcoming == Skip(old(upcoming), bytes.Length)
    {
      var s, n := upcoming, bytes.Length;
      for i := 0 to n
        invariant forall k :: 0 <= k < i ==> bytes[k] == s(k)
      {
        bytes[i] := s(i);
      }
      assert bytes[..] == Drawn(s, n);
      upcoming := Skip(s, n);
    }
  }

  /** The bytes of a possibly null Java array, as a value. */
  function Elements(a: array?<byte>): Option<seq<byte>>
    reads a
  {
    if a == null then None else Some(a[..])
  }

  class MutableBytes {
    /** internalArray(): the backing array, never replaced. */
    const data: array<byte>
    const byteOrder: ByteOrder

    /** Wraps `byteArray` itself, without copying it. */
    constructor (byteArray: array<byte>, byteOrder: ByteOrder)
      ensures data == byteArray && this.byteOrder == byteOrder
    {
      data := byteArray;
      this.byteOrder := byteOrder;
    }

    /** What a mutator hands back: this instance, or the exception it threw. */
    function Returned(thrown: Option<Error>): Result<MutableBytes, Error>
    {
      if thrown.None? then Success(this) else Failure(thrown.value)
    }

    /**
     * overwrite(newArray, offsetInternalArray): rejects a null source, then a
     * range that does not fit, before anything is written; otherwise copies all
     * of newArray into the buffer from the offset on and leaves every other byte.
     * The source is read before the copy starts, so newArray may be the
     * buffer's own array, as System.arraycopy allows.
     */
    method OverwriteAt(newArray: array?<byte>, offsetInternalArray: int) returns (r: Result<MutableBytes, Error>)
      modifies data
      ensures data[..] == AfterOverwrite(old(data[..]), old(Elements(newArray)), offsetInternalArray).contents
      ensures r == Returned(AfterOverwrite(old(data[..]), old(Elements(newArray)), offsetInternalArray).thrown)
    {
      if newArray == null {
        return Failure(NullPointer(SourceNullMessage));
      }
      var src := newArray[..];
      if offsetInternalArray < 0 || offsetInternalArray + |src| > data.Length {
        return Failure(IndexOutOfBounds);
      }
      ghost var before := data[..];
      var i := 0;
      while i < |src|
        invariant 0 <= i <= |src|
        invariant forall k :: 0 <= k < data.Length ==>
                    data[k] == if offsetInternalArray <= k < offsetInternalArray + i
                               then src[k - offsetInternalArray] else before[k]
      {
        data[offsetInternalArray + i] := src[i];
        i := i + 1;
      }
      assert data[..] == Overwritten(before, src, offsetInternalArray);
      return Success(this);
    }

    /**
     * overwrite(newArray): overwrite(newArray, 0); the first newArray.length
     * bytes become newArray and the rest stay.
     */
    method Overwrite(newArray: array?<byte>) returns (r: Result<MutableBytes, Error>)
      modifies data
      ensures data[..] == AfterOverwrite(old(data[..]), old(Elements(newArray)), 0).contents
      ensures r == Returned(AfterOverwrite(old(data[..]), old(Elements(newArray)), 0).thrown)
      ensures newArray != null && newArray.Length <= data.Length ==>
                r == Success(this) && data[..] == old(newArray[..]) + old(data[newArray.Length..])
    {
      ghost var before, src := data[..], Elements(newArray);
      r := OverwriteAt(newArray, 0);
      if src.Some? {
        OverwriteFromStart(before, src.value);
      }
    }

    /** fill(fillByte): Arrays.fill over the whole buffer. */
    method Fill(fillByte: byte) returns (r: MutableBytes)
      modifies data
      ensures r == this
      ensures data[..] == AfterFill(old(data[..]), fillByte).contents
    {
      for i := 0 to data.Length
        invariant forall k :: 0 <= k < i ==> data[k] == fillByte
      {
        data[i] := fillByte;
      }
      return this;
    }

    /** wipe(): fill(0). */
    method Wipe() returns (r: MutableBytes)
      modifies data
      ensures r == this
      ensures data[..] == AfterWipe(old(data[..])).contents
    {
      r := Fill(0);
    }

    /**
     * secureWipe(random): rejects a null generator before anything changes;
     * otherwise has it fill the whole backing array with its next output.
     */
    method SecureWipeWith(random: SecureRandom?) returns (r: Result<MutableBytes, Error>)
      modifies data, random
      ensures data[..] == AfterSecureWipe(old(data[..]), if random == null then None else Some(old(random.upcoming))).contents
      ensures r == Returned(AfterSecureWipe(old(data[..]), if random == null then None else Some(old(random.upcoming))).thrown)
      ensures random != null ==> random.upcoming == Skip(old(random.upcoming), data.Length)
    {
      if random == null {
        return Failure(NullPointer(RandomNullMessage));
      }
      random.NextBytes(data);
      return Success(this);
    }

    /**
     * secureWipe(): secureWipe(new SecureRandom()); `entropy` is the output
     * of that new generator, which is not modelled.
     */
    method SecureWipe(entropy: ByteStream) returns (r: MutableBytes)
      modifies data
      ensures r == this
      ensures data[..] == AfterSecureWipe(old(data[..]), Some(entropy)).contents
    {
      var random := new SecureRandom(entropy);
      var result := SecureWipeWith(random);
      r := result.value;
    }
  }

  /**
   * A client: `m.fill(1).wipe().overwrite(d, 0)` works on one instance and
   * the one array, seen through the original reference.
   */
  method Chaining(a: array<byte>, d: array<byte>)
    requires a != d && d.Length <= a.Length
    modifies a
  {
    var m := new MutableBytes(a, BigEndian);
    var m1 := m.Fill(1);
    var m2 := m1.Wipe();
    var r := m2.OverwriteAt(d, 0);
    assert r == Success(m) && m.data == a;
    assert a[..d.Length] == d[..];
    assert forall k :: d.Length <= k < a.Length ==> a[k] == 0;
  }

  /** A client: `[1, 2, 3, 4]` overwritten at 1 by `[AA, BB]`, then at 3, where it does not fit. */
  method OverwriteExample()
  {
    var a := new byte[4];
    a[0], a[1], a[2], a[3] := 0x01, 0x02, 0x03, 0x04;
    var d := new byte[2];
    d[0], d[1] := 0xAA, 0xBB;
    var m := new MutableBytes(a, BigEndian);
    var r := m.OverwriteAt(d, 1);
    assert a[..] == [0x01, 0xAA, 0xBB, 0x04];
    r := m.OverwriteAt(d, 3);
    assert r == Failure(IndexOutOfBounds) && a[..] == [0x01, 0xAA, 0xBB, 0x04];
  }

  /** A client: `[1, 2, 3]` filled with `FF`, then wiped. */
  method FillWipeExample()
  {
    var b := new byte[3];
    b[0], b[1], b[2] := 0x01, 0x02, 0x03;
    var n := new MutableBytes(b, LittleEndian);
    var n1 := n.Fill(0xFF);
    assert b[..] == [0xFF, 0xFF, 0xFF];
    var n2 := n1.Wipe();
    assert n2 == n && b[..] == [0x00, 0x00, 0x00];
  }
}

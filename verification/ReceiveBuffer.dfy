/** The connection's input buffer: unread bytes at a cursor in an array that is compacted, grown and shrunk. */
module ReceiveBuffer {
  import opened Basics

  const DEFAULT_SIZE: nat := 2048
  const HIGHWAT_SIZE: nat := 8192

  class Buffer {
    var buf: array<byte>
    var curr: nat
    var dataSize: nat

    ghost predicate Valid()
      reads this
    {
      curr + dataSize <= buf.Length && buf.Length >= DEFAULT_SIZE
    }

    /** The bytes received and not yet processed. */
    ghost function Unread(): (s: seq<byte>)
      reads this, buf
      requires Valid()
      ensures |s| == dataSize
    {
      buf[curr..curr + dataSize]
    }

    function FreeSpace(): nat
      reads this
      requires Valid()
    {
      buf.Length - curr - dataSize
    }

    constructor ()
      ensures Valid() && Unread() == [] && FreeSpace() == DEFAULT_SIZE && fresh(buf)
    {
      buf := new byte[DEFAULT_SIZE](_ => 0);
      curr, dataSize := 0, 0;
    }

    /** Resizes in the manner of realloc: the contents up to the smaller size are kept; it fails without memory. */
    method Resize(size: nat, memory: bool)
      requires Valid() && size >= DEFAULT_SIZE && curr + dataSize <= size
      modifies this`buf
      ensures Valid() && Unread() == old(Unread())
      ensures if memory then fresh(buf) && buf.Length == size else buf == old(buf)
    {
      if memory {
        var bigger := new byte[size](i requires 0 <= i < size reads this, buf => if i < buf.Length then buf[i] else 0);
        buf := bigger;
      }
    }

    /** Moves the unread bytes to the front of the array. */
    method Compact()
      requires Valid()
      modifies this`curr, buf
      ensures Valid() && curr == 0 && Unread() == old(Unread())
    {
      for i := 0 to dataSize
        invariant curr == old(curr) && Valid()
        invariant forall j :: 0 <= j < i ==> buf[j] == old(buf[curr + j])
        invariant forall j :: curr + i <= j < buf.Length ==> buf[j] == old(buf[j])
      {
        buf[i] := buf[curr + i];
      }
      curr := 0;
    }

    /**
     Makes room. No unread byte is lost; there is space to read into afterwards, except exactly if unread bytes fill
     the array and there is no memory to grow it; and a large array is given up once little data is left.
     */
    method HandleProcessed(growth: bool, shrink: bool)
      requires Valid()
      modifies this`buf, this`curr, buf
      ensures Valid() && Unread() == old(Unread()) && curr == 0
      ensures buf == old(buf) || fresh(buf)
      ensures FreeSpace() > 0 <==> growth || old(dataSize < buf.Length)
      ensures growth && shrink ==> buf.Length <= HIGHWAT_SIZE || DEFAULT_SIZE <= dataSize
    {
      if curr != 0 { Compact(); }
      if FreeSpace() < DEFAULT_SIZE {
        Resize(buf.Length * 2, growth);
        if !growth { return; }
      }
      if buf.Length > HIGHWAT_SIZE && dataSize < DEFAULT_SIZE {
        Resize(DEFAULT_SIZE, shrink);
      }
    }

    /** Bytes read from the connection go after the unread ones. */
    method Fill(chunk: seq<byte>)
      requires Valid() && |chunk| <= FreeSpace()
      modifies this`dataSize, buf
      ensures Valid() && Unread() == old(Unread()) + chunk && curr == old(curr)
    {
      for i := 0 to |chunk|
        invariant Valid() && curr == old(curr) && dataSize == old(dataSize) && |chunk| <= FreeSpace()
        invariant forall j :: 0 <= j < i ==> buf[curr + dataSize + j] == chunk[j]
        invariant buf[curr..curr + dataSize] == old(buf[curr..curr + dataSize])
      {
        buf[curr + dataSize + i] := chunk[i];
      }
      dataSize := dataSize + |chunk|;
    }

    /** Processes the first `n` unread bytes. */
    method Take(n: nat) returns (bytes: seq<byte>)
      requires Valid() && n <= dataSize
      modifies this`curr, this`dataSize
      ensures Valid() && bytes == old(Unread())[..n] && Unread() == old(Unread())[n..]
    {
      bytes := buf[curr..curr + n];
      curr, dataSize := curr + n, dataSize - n;
    }
  }
}

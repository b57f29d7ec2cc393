/** `Buffer` and `BufferStream` (stdsc/stdsc_buffer.hpp, stdsc/stdsc_buffer.cpp): a stream
    buffer whose get and put areas are the byte area of a buffer.

    Positions are distances from the common base of the two areas. The put position moves by
    `pbump`, whose argument is an `int`. */
module BufferStreams {
  import opened Bytes

  datatype Way = Beg | Cur | End

  /** What a stream shows: its bytes and the two positions. */
  datatype View = View(bytes: seq<byte>, get: int, put: int)

  const INT_MAX: int := 0x7FFF_FFFF

  /** Conversion of a pointer difference to a 32-bit `int`: it wraps around. */
  function ToInt32(n: int): (r: int)
    ensures -INT_MAX - 1 <= r <= INT_MAX && (n - r) % 0x1_0000_0000 == 0
    ensures r == n <==> -INT_MAX - 1 <= n <= INT_MAX
  {
    (n + 0x8000_0000) % 0x1_0000_0000 - 0x8000_0000
  }

  predicate FitsInt(n: int) {
    -INT_MAX - 1 <= n <= INT_MAX
  }

  /** The sizes for which no movement of the put position is cut off. */
  predicate PbumpSafe(size: nat) {
    size <= 0x8000_0000
  }

  ghost predicate Wf(v: View) {
    0 <= v.get <= |v.bytes| && 0 <= v.put <= |v.bytes|
  }

  // ---- seeking -----------------------------------------------------------------------

  /** Where a seek of one area leads, if that is inside it; the end stands for the last byte. */
  function Target(size: nat, pos: int, off: int, way: Way): (t: Option<int>)
    ensures t.Some? ==> 0 <= t.value < size
  {
    var p := match way case Beg => off case Cur => pos + off case End => size + off - 1;
    if 0 <= p < size then Some(p) else None
  }

  /** The two positions after a seek, and the position it returns, or -1. */
  datatype Landing = Landing(get: int, put: int, result: int)

  function Land(size: nat, get: int, put: int, off: int, way: Way, input: bool, output: bool): Landing {
    if (!input && !output) || (input && output && way == Cur) then Landing(get, put, -1)
    else
      match Target(size, if input then get else put, off, way)
      case None => Landing(get, put, -1)
      case Some(p) => Landing(if input then p else get, if output then put + ToInt32(p - put) else put, p)
  }

  /** The landing in terms of the targets of the two sides; they never differ. */
  lemma LandFromTargets(size: nat, get: int, put: int, off: int, way: Way, input: bool, output: bool,
                        posIn: Option<int>, posOut: Option<int>)
    requires (input || output) && !(input && output && way == Cur)
    requires posIn == if input then Target(size, get, off, way) else None
    requires posOut == if output then Target(size, put, off, way) else None
    ensures input && output ==> posIn == posOut
    ensures Land(size, get, put, off, way, input, output) ==
            if (input && posIn == None) || (output && posOut == None) then Landing(get, put, -1)
            else Landing(if input then posIn.value else get,
                         if output then put + ToInt32(posOut.value - put) else put,
                         if input then posIn.value else posOut.value)
  {
  }

  /** What `seekoff` does to a view: the new view, and the position or -1. */
  function Sought(v: View, off: int, way: Way, input: bool, output: bool): (View, int) {
    var l := Land(|v.bytes|, v.get, v.put, off, way, input, output);
    (v.(get := l.get, put := l.put), l.result)
  }

  /** A buffer: its storage is shared by every copy of it and by every stream made from it. */
  class Buffer {
    const storage: array<byte>

    constructor (size: nat, val: byte)
      ensures storage[..] == seq(size, _ => val) && fresh(storage)
    {
      storage := new byte[size](_ => val);
    }
  }

  class BufferStream {
    const storage: array<byte>
    var gptr: int
    var pptr: int

    /** A stream over a buffer aliases the buffer's storage. */
    constructor (buffer: Buffer)
      ensures storage == buffer.storage && gptr == 0 && pptr == 0
      ensures Valid()
    {
      storage := buffer.storage;
      gptr, pptr := 0, 0;
    }

    ghost predicate Valid()
      reads this, storage
    {
      Wf(Contents())
    }

    ghost function Contents(): View
      reads this, storage
    {
      View(storage[..], gptr, pptr)
    }

    /** The switch of one side: the position it computes if that is inside the area, and
        `None` for the null pointer the source uses otherwise. */
    method Locate(pos: int, off: int, way: Way) returns (t: Option<int>)
      ensures t == Target(storage.Length, pos, off, way)
    {
      var p: int;
      match way {
        case End => p := storage.Length + off - 1;
        case Cur => p := pos + off;
        case Beg => p := 0 + off;
      }
      t := if 0 <= p && p < storage.Length then Some(p) else None;
    }

    method SeekOff(off: int, way: Way, input: bool, output: bool) returns (result: int)
      modifies this`gptr, this`pptr
      ensures Landing(gptr, pptr, result) == Land(storage.Length, old(gptr), old(pptr), off, way, input, output)
    {
      if (!input && !output) || ((input && output) && way == Cur) {
        return -1;
      }
      var posIn: Option<int>, posOut: Option<int> := None, None;
      if input {
        posIn := Locate(gptr, off, way);
      }
      if output {
        posOut := Locate(pptr, off, way);
      }
      LandFromTargets(storage.Length, gptr, pptr, off, way, input, output, posIn, posOut);
      if ((input && posIn == None) || (output && posOut == None)) || ((input && output) && posIn != posOut) {
        result := -1;
      } else {
        result := if input then posIn.value else posOut.value;
        if input && gptr != posIn.value {
          gptr := posIn.value;
        }
        if output && pptr != posOut.value {
          pptr := pptr + ToInt32(posOut.value - pptr);
        }
      }
    }

    method SeekPos(pos: int, input: bool, output: bool) returns (result: int)
      modifies this`gptr, this`pptr
      ensures Landing(gptr, pptr, result) == Land(storage.Length, old(gptr), old(pptr), pos, Beg, input, output)
    {
      result := SeekOff(pos, Beg, input, output);
    }

    /** `pubseekoff` of the standard stream buffer: what a user of the stream sees. */
    method PubSeekOff(off: int, way: Way, input: bool, output: bool) returns (result: int)
      requires Valid()
      modifies this`gptr, this`pptr
      ensures (Contents(), result) == Sought(old(Contents()), off, way, input, output)
      ensures PbumpSafe(storage.Length) ==> Valid()
    {
      result := SeekOff(off, way, input, output);
    }

    /** `sputn` of the standard stream buffer: as many bytes as fit before the end. */
    method Write(w: seq<byte>) returns (n: nat)
      requires Valid()
      modifies storage, this`pptr
      ensures Valid()
      ensures (Contents(), n) == Written(old(Contents()), w)
    {
      ghost var before := storage[..];
      n := if |w| <= storage.Length - pptr then |w| else storage.Length - pptr;
      forall i | 0 <= i < n {
        storage[pptr + i] := w[i];
      }
      assert storage[..] == before[..pptr] + w[..n] + before[pptr + n..];
      pptr := pptr + n;
    }

    /** `sgetn` of the standard stream buffer: as many bytes as there are before the end. */
    method Read(count: nat) returns (r: seq<byte>)
      requires Valid()
      modifies this`gptr
      ensures Valid()
      ensures (Contents(), r) == ReadFrom(old(Contents()), count)
    {
      var n := if count <= storage.Length - gptr then count else storage.Length - gptr;
      r := storage[gptr..gptr + n];
      gptr := gptr + n;
    }
  }

  function Written(v: View, w: seq<byte>): (View, nat)
    requires 0 <= v.put <= |v.bytes|
  {
    var n := if |w| <= |v.bytes| - v.put then |w| else |v.bytes| - v.put;
    (v.(bytes := v.bytes[..v.put] + w[..n] + v.bytes[v.put + n..], put := v.put + n), n)
  }

  function ReadFrom(v: View, count: nat): (View, seq<byte>)
    requires 0 <= v.get <= |v.bytes|
  {
    var n := if count <= |v.bytes| - v.get then count else |v.bytes| - v.get;
    (v.(get := v.get + n), v.bytes[v.get..v.get + n])
  }

  // ---- any sequence of operations ----------------------------------------------------

  datatype Op =
    | Seek(off: int, way: Way, input: bool, output: bool)
    | Put(w: seq<byte>)
    | Get(count: nat)

  function Do(v: View, op: Op): (v': View)
    requires 0 <= v.get <= |v.bytes| && 0 <= v.put <= |v.bytes| && PbumpSafe(|v.bytes|)
    ensures 0 <= v'.get <= |v'.bytes| == |v.bytes| && 0 <= v'.put <= |v'.bytes|
  {
    match op
    case Seek(off, way, input, output) => Sought(v, off, way, input, output).0
    case Put(w) => Written(v, w).0
    case Get(count) => ReadFrom(v, count).0
  }

  /** After any operations both positions are still inside the one area they share. */
  function DoAll(v: View, ops: seq<Op>): (v': View)
    requires 0 <= v.get <= |v.bytes| && 0 <= v.put <= |v.bytes| && PbumpSafe(|v.bytes|)
    ensures 0 <= v'.get <= |v'.bytes| == |v.bytes| && 0 <= v'.put <= |v'.bytes|
  {
    if ops == [] then v else Do(DoAll(v, ops[..|ops| - 1]), ops[|ops| - 1])
  }

  // ---- the contract of seekoff -------------------------------------------------------

  /** A seek asks for a number: an offset from the beginning, from the position of its side, or
      from the last byte. It fails exactly when no side, or both sides relative to the current
      position, were asked for, or the number is outside the area, and then moves nothing;
      otherwise it returns the number and moves exactly the selected positions to it (the put
      position if the distance fits an `int`). */
  lemma SeekContract(v: View, off: int, way: Way, input: bool, output: bool)
    requires Wf(v)
    ensures var (v', p) := Sought(v, off, way, input, output);
      var number := if way == Beg then off
                    else if way == Cur then (if input then v.get else v.put) + off
                    else |v.bytes| - 1 + off;
      && (p == -1 <==> (!input && !output) || (input && output && way == Cur) || !(0 <= number < |v.bytes|))
      && (p == -1 ==> v' == v)
      && (p != -1 ==>
            && p == number && v'.bytes == v.bytes
            && v'.get == (if input then p else v.get)
            && (if output then v'.put == p <==> FitsInt(p - v.put) else v'.put == v.put)
            && (output ==> (p - v'.put) % 0x1_0000_0000 == 0))
  {
  }

  /** Seeking both sides from the beginning or the end computes the same position for both. */
  lemma JointSeeksAgree(v: View, off: int, way: Way)
    requires way != Cur
    ensures Target(|v.bytes|, v.get, off, way) == Target(|v.bytes|, v.put, off, way)
  {
  }

  /** A seek of the put position that reports success has moved it to where it says. */
  ghost predicate ArrivesWhereItSays(v: View, off: int, way: Way, input: bool) {
    var (v', p) := Sought(v, off, way, input, true);
    p != -1 ==> v'.put == p
  }

  /** Every successful seek of the put position arrives where it says, in all areas of a size
      and from all positions, if and only if the size is at most 2^31. */
  lemma PbumpSafeIff(size: nat)
    ensures PbumpSafe(size) <==>
            forall v: View, off, way, input :: Wf(v) && |v.bytes| == size ==> ArrivesWhereItSays(v, off, way, input)
  {
    if !PbumpSafe(size) {
      var v := View(seq(size, _ => 0), 0, 0);
      assert Wf(v) && !ArrivesWhereItSays(v, 0x8000_0000, Beg, false);
    }
  }

  /** In a larger area a successful seek from the beginning can put the position before the base. */
  lemma PbumpOverflows(v: View)
    requires Wf(v) && v.put == 0 && |v.bytes| > 0x8000_0000
    ensures Sought(v, 0x8000_0000, Beg, false, true) == (v.(put := -0x8000_0000), 0x8000_0000)
  {
  }

  // ---- tell and seek -----------------------------------------------------------------

  /** `tellg` and `tellp` ask for the current position of one side. A position can be told if
      and only if it is strictly before the end; and then, whatever is done in between,
      seeking to it brings that side back to it. */
  lemma TellThenSeek(v: View, ops: seq<Op>, input: bool)
    requires Wf(v) && PbumpSafe(|v.bytes|)
    ensures var pos := if input then v.get else v.put;
      var told := Sought(v, 0, Cur, input, !input);
      var later := DoAll(v, ops);
      && told.0 == v
      && (told.1 == pos <==> pos < |v.bytes|) && (told.1 == -1 <==> pos == |v.bytes|)
      && (told.1 != -1 ==>
            var (back, p) := Sought(later, told.1, Beg, input, !input);
            p == pos && (if input then back.get else back.put) == pos)
  {
  }

  /** A write takes as many bytes as there is room for before the end, and a read as many as there
      are; neither touches anything else. */
  lemma AsMuchAsFits(v: View, w: seq<byte>, count: nat)
    requires Wf(v)
    ensures var (v', n) := Written(v, w);
      && n <= |w| && n <= |v.bytes| - v.put && (n == |w| || n == |v.bytes| - v.put)
      && v'.put == v.put + n && v'.get == v.get && |v'.bytes| == |v.bytes|
      && (forall i :: 0 <= i < |v.bytes| ==>
            v'.bytes[i] == if v.put <= i < v.put + n then w[i - v.put] else v.bytes[i])
    ensures var (v', r) := ReadFrom(v, count);
      && |r| <= count && |r| <= |v.bytes| - v.get && (|r| == count || |r| == |v.bytes| - v.get)
      && v' == v.(get := v.get + |r|) && (forall i :: 0 <= i < |r| ==> r[i] == v.bytes[v.get + i])
  {
  }

  /** Bytes written from a sought position are read back from there, and all other bytes of
      the area are as before. */
  lemma WriteThenRead(v: View, p: nat, w: seq<byte>)
    requires Wf(v) && PbumpSafe(|v.bytes|) && p < |v.bytes| && p + |w| <= |v.bytes|
    ensures var v1 := Sought(v, p, Beg, false, true).0;
      var (v2, n) := Written(v1, w);
      var v3 := Sought(v2, p, Beg, true, false).0;
      var (v4, r) := ReadFrom(v3, |w|);
      && n == |w| && r == w
      && |v4.bytes| == |v.bytes|
      && (forall i :: 0 <= i < |v.bytes| && !(p <= i < p + |w|) ==> v4.bytes[i] == v.bytes[i])
      && v4.put == v4.get == p + |w|
  {
    var v1 := Sought(v, p, Beg, false, true).0;
    var v2 := Written(v1, w).0;
    assert w[..|w|] == w;
    assert v2.bytes == v.bytes[..p] + w + v.bytes[p + |w|..];
    assert v2.bytes[p..p + |w|] == w;
  }
}

/**
  The in-memory stream buffer: a container of bytes that grows, with one position for reading or writing.

  `Stream` is the plain reading of it, a byte sequence and a position (and the flags of its state manager);
  `Step` says what every operation does to it and answers. The class is the code, proved against `Step`.
 */
module ContainerBuffer {
  import opened Wrappers

  newtype Byte = b: int | 0 <= b < 256

  datatype Stream = Stream(data: seq<Byte>, position: nat, canRead: bool, canWrite: bool, alloced: bool, eof: bool)

  datatype Way = FromBegin | FromCurrent | FromEnd | FromElsewhere

  /** `read` and `write` stand for the flags `in` and `out` of an open mode. */
  datatype Op =
    | GetN(count: nat)
    | SCopy(count: nat)
    | BumpC
    | GetC
    | NextC
    | UngetC
    | PutC(c: Byte)
    | PutN(chars: seq<Byte>)
    | SeekPos(to: int, read: bool, write: bool)
    | SeekOff(offset: int, way: Way, read: bool, write: bool)
    | Acquire
    | Release(isNull: bool, count: nat)
    | Alloc(count: nat)
    | Fill(at: nat, chars: seq<Byte>)  // the caller stores through the pointer that `alloc` returned
    | Commit(count: nat)
    | Close(read: bool, write: bool)

  datatype Reply =
    | Chars(chars: seq<Byte>)
    | Char(c: Option<Byte>)
    | Count(count: nat)
    | Place(at: Option<nat>)
    | Block(ok: bool, chars: seq<Byte>)
    | Grant(at: Option<nat>)
    | Thrown
    | Done

  predicate InBounds(s: Stream) {
    s.position <= |s.data|
  }

  /** What the caller owes: a null or granted block, and no more of it than was granted. */
  predicate Legal(s: Stream, op: Op) {
    match op
    case Release(isNull, count) => isNull || s.position + count <= |s.data|
    case Fill(at, chars) => s.alloced && at + |chars| <= |s.data|
    case Commit(count) => s.alloced ==> s.position + count <= |s.data|
    case _ => true
  }

  function Available(s: Stream): nat
    requires InBounds(s)
  {
    |s.data| - s.position
  }

  /** The next characters, at most `count` of them. */
  function Next(s: Stream, count: nat): (chars: seq<Byte>)
    requires InBounds(s)
    ensures |chars| == if count < Available(s) then count else Available(s)
  {
    s.data[s.position..s.position + if count < Available(s) then count else Available(s)]
  }

  function Skip(s: Stream, count: nat): (r: Stream)
    requires InBounds(s)
    ensures InBounds(r)
  {
    s.(position := s.position + |Next(s, count)|)
  }

  function Peek(s: Stream): Option<Byte>
    requires InBounds(s)
  {
    if s.position < |s.data| then Some(s.data[s.position]) else None
  }

  function Zeros(n: nat): seq<Byte> {
    seq(n, _ => 0)
  }

  function Resized(data: seq<Byte>, size: nat): (r: seq<Byte>)
    ensures |r| == if size > |data| then size else |data|
  {
    if size > |data| then data + Zeros(size - |data|) else data
  }

  /** `chars` stored into `data` from index `at` on. */
  function Stored(data: seq<Byte>, at: nat, chars: seq<Byte>): (r: seq<Byte>)
    requires at + |chars| <= |data|
    ensures |r| == |data|
  {
    data[..at] + chars + data[at + |chars|..]
  }

  function Written(s: Stream, chars: seq<Byte>): (r: Stream)
    requires InBounds(s)
    ensures InBounds(r)
  {
    var end := s.position + |chars|;
    s.(data := Stored(Resized(s.data, end), s.position, chars), position := end)
  }

  function SeekTo(s: Stream, to: int, read: bool, write: bool): (r: (Stream, Reply))
    requires InBounds(s)
    ensures InBounds(r.0)
  {
    if to < 0 then (s, Place(None))
    else if read && s.canRead && to <= |s.data| then (s.(position := to), Place(Some(to)))
    else if write && s.canWrite then (s.(data := Resized(s.data, to), position := to), Place(Some(to)))
    else (s, Place(None))
  }

  function SeekBy(s: Stream, offset: int, way: Way, read: bool, write: bool): (r: (Stream, Reply))
    requires InBounds(s)
    ensures InBounds(r.0)
  {
    match way
    case FromBegin => SeekTo(s, offset, read, write)
    case FromCurrent => SeekTo(s, s.position + offset, read, write)
    case FromEnd => SeekTo(s, |s.data| + offset, read, write)
    case FromElsewhere => (s, Place(None))
  }

  function Unget(s: Stream): (r: (Stream, Reply))
    requires InBounds(s)
    ensures InBounds(r.0)
  {
    if s.position == 0 then (s.(eof := false), Char(None))
    else (s.(position := s.position - 1, eof := false), Char(Some(s.data[s.position - 1])))
  }

  function AllocStep(s: Stream, count: nat): (r: (Stream, Reply))
    requires InBounds(s)
    ensures InBounds(r.0)
  {
    if s.alloced then (s, Thrown)
    else if !s.canWrite then (s, Grant(None))
    else (s.(data := Resized(s.data, s.position + count), alloced := true), Grant(Some(s.position)))
  }

  function Step(s: Stream, op: Op): (r: (Stream, Reply))
    requires InBounds(s) && Legal(s, op)
    ensures InBounds(r.0)
  {
    match op
    case GetN(count) =>
      if !s.canRead || count == 0 then (s, Chars([]))
      else (Skip(s, count).(eof := Next(s, count) == []), Chars(Next(s, count)))
    case SCopy(count) => (s, Chars(if s.canRead then Next(s, count) else []))
    case BumpC => if !s.canRead then (s, Char(None)) else (Skip(s, 1).(eof := Peek(s).None?), Char(Peek(s)))
    case GetC => if !s.canRead then (s, Char(None)) else (s.(eof := Peek(s).None?), Char(Peek(s)))
    case NextC =>
      if !s.canRead then (s, Char(None)) else (Skip(s, 1).(eof := Peek(Skip(s, 1)).None?), Char(Peek(Skip(s, 1))))
    case UngetC => if !s.canRead then (s, Char(None)) else Unget(s)
    case PutC(c) => if !s.canWrite then (s, Char(None)) else (Written(s, [c]).(eof := false), Char(Some(c)))
    case PutN(chars) =>
      if !s.canWrite || chars == [] then (s, Count(0)) else (Written(s, chars).(eof := false), Count(|chars|))
    case SeekPos(to, read, write) => SeekTo(s, to, read, write)
    case SeekOff(offset, way, read, write) => SeekBy(s, offset, way, read, write)
    case Acquire => (s, if s.canRead then Block(true, s.data[s.position..]) else Block(false, []))
    case Release(isNull, count) => (if isNull then s else s.(position := s.position + count), Done)
    case Alloc(count) => AllocStep(s, count)
    case Fill(at, chars) => (s.(data := Stored(s.data, at, chars)), Done)
    case Commit(count) =>
      if !s.alloced then (s, Thrown) else (s.(position := s.position + count, alloced := false), Done)
    case Close(read, write) => (s.(canRead := s.canRead && !read, canWrite := s.canWrite && !write), Done)
  }

  // ---------- the code ----------

  class ContainerBuffer {
    var data: seq<Byte>
    var position: nat
    var canRead: bool
    var canWrite: bool
    var alloced: bool
    var eof: bool

    function View(): Stream
      reads this
    {
      Stream(data, position, canRead, canWrite, alloced, eof)
    }

    predicate Valid()
      reads this
    {
      InBounds(View()) && !(canRead && canWrite)
    }

    constructor (content: seq<Byte>, read: bool, write: bool)
      ensures View() == Stream(content, if read then 0 else |content|, read, write, false, false)
    {
      data, position := content, if read then 0 else |content|;
      canRead, canWrite, alloced, eof := read, write, false, false;
    }

    /** A buffer is for reading or for writing; null is the exception for a mode that asks for both. */
    static method Create(content: seq<Byte>, read: bool, write: bool) returns (b: ContainerBuffer?)
      ensures b == null <==> read && write
      ensures b != null ==>
                && fresh(b) && b.Valid()
                && b.View() == Stream(content, if read then 0 else |content|, read, write, false, false)
    {
      if read && write {
        return null;
      }
      b := new ContainerBuffer(content, read, write);
    }

    method InAvail() returns (n: nat)
      requires Valid()
      ensures n == Available(View())
    {
      n := |data| - position;
    }

    /** Copies up to `count` characters to `ptr` from index `at` on. */
    method Read(ptr: array<Byte>, at: nat, count: nat, advance: bool) returns (n: nat)
      requires Valid() && at + count <= ptr.Length
      modifies `position, ptr
      ensures n == |Next(old(View()), count)| && ptr[..] == Stored(old(ptr[..]), at, Next(old(View()), count))
      ensures View() == old(View()).(position := if advance then old(position) + n else old(position))
    {
      var avail := InAvail();
      if avail == 0 {
        n := 0;
        assert ptr[..] == Stored(ptr[..], at, []);
        return;
      }
      n := if count < avail then count else avail;
      ghost var was, chars := ptr[..], Next(View(), count);
      forall k | 0 <= k < n {
        ptr[at + k] := data[position + k];
      }
      assert ptr[..] == Stored(was, at, chars);
      if advance {
        position := position + n;
      }
    }

    method ReadByte(advance: bool) returns (c: Option<Byte>)
      requires Valid()
      modifies `position
      ensures c == Peek(old(View()))
      ensures View() == old(View()).(position := if advance && c.Some? then old(position) + 1 else old(position))
    {
      var value := new Byte[1];
      var n := Read(value, 0, 1, advance);
      assert n == 1 ==> value[..][0] == Peek(old(View())).value;
      c := if n == 1 then Some(value[0]) else None;
    }

    method ResizeForWrite(size: nat)
      modifies `data
      ensures data == Resized(old(data), size)
    {
      if size > |data| {
        data := data + Zeros(size - |data|);
      }
    }

    method Write(chars: seq<Byte>) returns (n: nat)
      requires Valid()
      modifies `data, `position
      ensures View() == if canWrite && chars != [] then Written(old(View()), chars) else old(View())
      ensures n == if canWrite then |chars| else 0
    {
      if !canWrite || |chars| == 0 {
        return 0;
      }
      ResizeForWrite(position + |chars|);
      data := Stored(data, position, chars);
      position := position + |chars|;
      n := |chars|;
    }

    method GetN(ptr: array<Byte>, at: nat, count: nat) returns (n: nat)
      requires Valid() && at + count <= ptr.Length
      modifies this, ptr
      ensures Valid() && n <= count
      ensures (View(), Chars(ptr[at..at + n])) == Step(old(View()), Op.GetN(count))
      ensures ptr[..] == Stored(old(ptr[..]), at, ptr[at..at + n])
    {
      assert ptr[..] == Stored(ptr[..], at, []);
      if !canRead || count == 0 {
        return 0;
      }
      ghost var chars := Next(View(), count);
      n := Read(ptr, at, count, true);
      assert ptr[at..at + n] == ptr[..][at..at + n] == chars;
      eof := n == 0;
    }

    method SCopy(ptr: array<Byte>, at: nat, count: nat) returns (n: nat)
      requires Valid() && at + count <= ptr.Length
      modifies `position, ptr
      ensures Valid() && n <= count
      ensures (View(), Chars(ptr[at..at + n])) == Step(old(View()), Op.SCopy(count))
      ensures ptr[..] == Stored(old(ptr[..]), at, ptr[at..at + n])
    {
      assert ptr[..] == Stored(ptr[..], at, []);
      if !canRead {
        return 0;
      }
      ghost var chars := Next(View(), count);
      n := Read(ptr, at, count, false);
      assert ptr[at..at + n] == ptr[..][at..at + n] == chars;
    }

    method BumpC() returns (c: Option<Byte>)
      requires Valid()
      modifies this
      ensures Valid() && (View(), Char(c)) == Step(old(View()), Op.BumpC)
    {
      if !canRead {
        return None;
      }
      c := ReadByte(true);
      eof := c == None;
    }

    method GetC() returns (c: Option<Byte>)
      requires Valid()
      modifies this
      ensures Valid() && (View(), Char(c)) == Step(old(View()), Op.GetC)
    {
      if !canRead {
        return None;
      }
      c := ReadByte(false);
      eof := c == None;
    }

    method NextC() returns (c: Option<Byte>)
      requires Valid()
      modifies this
      ensures Valid() && (View(), Char(c)) == Step(old(View()), Op.NextC)
    {
      if !canRead {
        return None;
      }
      var _ := ReadByte(true);
      c := ReadByte(false);
      eof := c == None;
    }

    method UngetC() returns (c: Option<Byte>)
      requires Valid()
      modifies this
      ensures Valid() && (View(), Char(c)) == Step(old(View()), Op.UngetC)
    {
      if !canRead {
        return None;
      }
      var pos := SeekOff(-1, FromCurrent, true, false);
      if pos == None {
        c := None;
      } else {
        c := GetC();
      }
      eof := false;
    }

    method PutC(ch: Byte) returns (c: Option<Byte>)
      requires Valid()
      modifies this
      ensures Valid() && (View(), Char(c)) == Step(old(View()), Op.PutC(ch))
    {
      if !canWrite {
        return None;
      }
      var n := Write([ch]);
      c := if n == 1 then Some(ch) else None;
      eof := false;
    }

    method PutN(chars: seq<Byte>) returns (n: nat)
      requires Valid()
      modifies this
      ensures Valid() && (View(), Count(n)) == Step(old(View()), Op.PutN(chars))
    {
      if !canWrite || |chars| == 0 {
        return 0;
      }
      n := Write(chars);
      eof := false;
    }

    method SeekPos(to: int, read: bool, write: bool) returns (at: Option<nat>)
      requires Valid()
      modifies `data, `position
      ensures Valid() && (View(), Place(at)) == SeekTo(old(View()), to, read, write)
    {
      var end := |data|;
      if to >= 0 {
        if read && canRead {
          if to <= end {
            position := to;
            return Some(position);
          }
        }
        if write && canWrite {
          ResizeForWrite(to);
          position := to;
          return Some(position);
        }
      }
      return None;
    }

    method SeekOff(offset: int, way: Way, read: bool, write: bool) returns (at: Option<nat>)
      requires Valid()
      modifies `data, `position
      ensures Valid() && (View(), Place(at)) == Step(old(View()), Op.SeekOff(offset, way, read, write))
    {
      match way
      case FromBegin => at := SeekPos(offset, read, write);
      case FromCurrent => at := SeekPos(position + offset, read, write);
      case FromEnd => at := SeekPos(|data| + offset, read, write);
      case FromElsewhere => at := None;
    }

    /** The block is the rest of the container; the pointer to it is null when it is empty. */
    method Acquire() returns (ok: bool, block: seq<Byte>)
      requires Valid()
      ensures (View(), Block(ok, block)) == Step(View(), Op.Acquire)
    {
      if !canRead {
        return false, [];
      }
      var count := InAvail();
      assert count == 0 ==> data[position..] == [];
      return true, if count > 0 then data[position..] else [];
    }

    method Release(isNull: bool, count: nat)
      requires Valid() && Legal(View(), Op.Release(isNull, count))
      modifies `position
      ensures Valid() && (View(), Done) == Step(old(View()), Op.Release(isNull, count))
    {
      if !isNull {
        position := position + count;
      }
    }

    /** The pointer returned is an index into the container; `threw` tells the exception. */
    method Alloc(count: nat) returns (threw: bool, at: Option<nat>)
      requires Valid()
      modifies this
      ensures Valid() && (View(), if threw then Thrown else Grant(at)) == Step(old(View()), Op.Alloc(count))
    {
      if alloced {
        return true, None;
      }
      if !canWrite {
        return false, None;
      }
      ResizeForWrite(position + count);
      alloced := true;
      return false, Some(position);
    }

    method Fill(at: nat, chars: seq<Byte>)
      requires Valid() && Legal(View(), Op.Fill(at, chars))
      modifies `data
      ensures Valid() && (View(), Done) == Step(old(View()), Op.Fill(at, chars))
    {
      data := Stored(data, at, chars);
    }

    method Commit(count: nat) returns (threw: bool)
      requires Valid() && Legal(View(), Op.Commit(count))
      modifies this
      ensures Valid() && (View(), if threw then Thrown else Done) == Step(old(View()), Op.Commit(count))
    {
      if !alloced {
        return true;
      }
      position := position + count;
      alloced := false;
      return false;
    }

    method Close(read: bool, write: bool)
      requires Valid()
      modifies `canRead, `canWrite
      ensures Valid() && (View(), Done) == Step(old(View()), Op.Close(read, write))
    {
      if read && canRead {
        canRead := false;
      }
      if write && canWrite {
        canWrite := false;
      }
    }
  }
}

/** What one operation on a container buffer answers and leaves, character by character. */
module StreamSteps {
  import opened Wrappers
  import opened ContainerBuffer
  import opened StreamLaws

  function Min(m: nat, n: nat): nat {
    if m < n then m else n
  }

  function Max(m: nat, n: nat): nat {
    if m > n then m else n
  }

  /** `chars` are the `n` characters of `s` at its position. */
  predicate AreAhead(s: Stream, chars: seq<Byte>, n: nat) {
    && s.position + n <= |s.data| && |chars| == n
    && forall k :: 0 <= k < n ==> chars[k] == s.data[s.position + k]
  }

  /** The character at index `at`, if there is one. */
  predicate IsAt(s: Stream, c: Option<Byte>, at: nat) {
    match c
    case None => at >= |s.data|
    case Some(x) => at < |s.data| && x == s.data[at]
  }

  /** The same contents and flags; the position and the end-of-file flag are given. */
  predicate MovedTo(s: Stream, r: Stream, position: nat, eof: bool) {
    r == Stream(s.data, position, s.canRead, s.canWrite, s.alloced, eof)
  }

  // ---------- reading ----------

  /**
    A buffer that is not open for reading answers nothing and stays as it is. Otherwise `getn` answers with as many
    characters as there are, up to `count`, and moves behind them; `scopy` answers with the same and does not move.
   */
  lemma GetNExactly(s: Stream, count: nat)
    requires InBounds(s)
    ensures var n := if s.canRead then Min(count, |s.data| - s.position) else 0;
      var (r, reply) := Step(s, GetN(count));
      && reply.Chars? && AreAhead(s, reply.chars, n)
      && MovedTo(s, r, s.position + n, if s.canRead && count > 0 then n == 0 else s.eof)
      && Step(s, SCopy(count)) == (s, reply)
  {
  }

  /** The one-character reads: which character is answered, where the position is left, and the flag. */
  lemma CharReadsExactly(s: Stream)
    requires InBounds(s) && s.canRead
    ensures var (r, reply) := Step(s, GetC);
      reply.Char? && IsAt(s, reply.c, s.position) && MovedTo(s, r, s.position, s.position == |s.data|)
    ensures var (r, reply) := Step(s, BumpC);
      && reply.Char? && IsAt(s, reply.c, s.position)
      && MovedTo(s, r, Min(s.position + 1, |s.data|), s.position == |s.data|)
    ensures var (r, reply) := Step(s, NextC);
      && reply.Char? && IsAt(s, reply.c, s.position + 1)
      && MovedTo(s, r, Min(s.position + 1, |s.data|), s.position + 1 >= |s.data|)
    ensures var (r, reply) := Step(s, UngetC);
      && reply.Char? && (reply.c.None? <==> s.position == 0)
      && (s.position > 0 ==> IsAt(s, reply.c, s.position - 1))
      && MovedTo(s, r, if s.position > 0 then s.position - 1 else 0, false)
  {
  }

  lemma CharReadsOfWriter(s: Stream, op: Op)
    requires InBounds(s) && !s.canRead && (op.GetC? || op.BumpC? || op.NextC? || op.UngetC?)
    ensures Step(s, op) == (s, Char(None))
  {
  }

  /** `acquire` answers with all that is left, and moves nothing; `release` moves, unless the pointer is null. */
  lemma AcquireExactly(s: Stream, isNull: bool, count: nat)
    requires InBounds(s)
    ensures var (r, reply) := Step(s, Acquire);
      && r == s && reply.Block? && reply.ok == s.canRead
      && (if s.canRead then AreAhead(s, reply.chars, |s.data| - s.position) else reply.chars == [])
    ensures isNull || s.position + count <= |s.data| ==>
      var (r, reply) := Step(s, Release(isNull, count));
      reply == Done && MovedTo(s, r, if isNull then s.position else s.position + count, s.eof)
  {
  }

  // ---------- writing ----------

  /** From index `at` on the container holds `chars`, elsewhere what it held; it has grown no more than needed. */
  predicate Overwritten(data: seq<Byte>, r: seq<Byte>, at: nat, chars: seq<Byte>) {
    && at <= |data| && |r| == Max(|data|, at + |chars|)
    && forall k :: 0 <= k < |r| ==> r[k] == if at <= k < at + |chars| then chars[k - at] else data[k]
  }

  /** The container has grown to `size`, if it was smaller, by zeros. */
  predicate Grown(data: seq<Byte>, r: seq<Byte>, size: nat) {
    && |r| == Max(|data|, size)
    && forall k :: 0 <= k < |r| ==> r[k] == if k < |data| then data[k] else 0
  }

  /**
    `putn` overwrites from the position on and moves behind what it wrote; of nothing, or without write access, it
    answers 0 and changes nothing.
   */
  lemma PutNExactly(s: Stream, chars: seq<Byte>)
    requires InBounds(s)
    ensures var (r, reply) := Step(s, PutN(chars));
      if s.canWrite && chars != [] then
        && reply == Count(|chars|) && Overwritten(s.data, r.data, s.position, chars)
        && r == Stream(r.data, s.position + |chars|, s.canRead, true, s.alloced, false)
      else reply == Count(0) && r == s
  {
  }

  lemma PutCExactly(s: Stream, c: Byte)
    requires InBounds(s)
    ensures var (r, reply) := Step(s, PutC(c));
      if s.canWrite then
        && reply == Char(Some(c)) && Overwritten(s.data, r.data, s.position, [c])
        && r == Stream(r.data, s.position + 1, s.canRead, true, s.alloced, false)
      else reply == Char(None) && r == s
  {
  }

  // ---------- seeking ----------

  predicate CanSeek(s: Stream, to: int, read: bool, write: bool) {
    to >= 0 && ((read && s.canRead && to <= |s.data|) || (write && s.canWrite))
  }

  /**
    A seek that succeeds leaves the position at `to`, answers it, and keeps the old bytes in front of zeros up to `to`;
    one that fails changes nothing.
   */
  predicate Sought(s: Stream, to: int, read: bool, write: bool, r: Stream, reply: Reply) {
    if CanSeek(s, to, read, write) then
      && reply == Place(Some(to)) && Grown(s.data, r.data, to)
      && r == Stream(r.data, to, s.canRead, s.canWrite, s.alloced, s.eof)
    else r == s && reply == Place(None)
  }

  /** A read head goes to every place in the data and its end, a write head to every place at all. */
  lemma SeekPosExactly(s: Stream, to: int, read: bool, write: bool)
    requires InBounds(s)
    ensures var (r, reply) := Step(s, SeekPos(to, read, write)); Sought(s, to, read, write, r, reply)
  {
  }

  /** The offset counts from the beginning, from the position or from the end; any other way fails. */
  lemma SeekOffExactly(s: Stream, offset: int, way: Way, read: bool, write: bool)
    requires InBounds(s)
    ensures var (r, reply) := Step(s, SeekOff(offset, way, read, write));
      match way
      case FromBegin => Sought(s, offset, read, write, r, reply)
      case FromCurrent => Sought(s, s.position + offset, read, write, r, reply)
      case FromEnd => Sought(s, |s.data| + offset, read, write, r, reply)
      case FromElsewhere => r == s && reply == Place(None)
  {
    hide Sought, SeekTo;
    match way
    case FromBegin => SeekPosExactly(s, offset, read, write);
    case FromCurrent => SeekPosExactly(s, s.position + offset, read, write);
    case FromEnd => SeekPosExactly(s, |s.data| + offset, read, write);
    case FromElsewhere =>
  }

  /** Seeking and then writing overwrites at the place sought, after zeros if that is past the end. */
  lemma {:induction false} SeekThenWrite(s: Stream, to: nat, chars: seq<Byte>)
    requires InBounds(s) && s.canWrite && chars != []
    ensures ValidRun(s, [SeekPos(to, false, true), PutN(chars)])
    ensures var r := After(s, [SeekPos(to, false, true), PutN(chars)]);
      && r.position == to + |chars| && |r.data| == Max(|s.data|, to + |chars|)
      && forall k :: 0 <= k < |r.data| ==>
           r.data[k] == if to <= k < to + |chars| then chars[k - to] else if k < |s.data| then s.data[k] else 0
  {
    hide Step;
    SeekPosExactly(s, to, false, true);
    var s1 := Step(s, SeekPos(to, false, true)).0;
    PutNExactly(s1, chars);
    TwoSteps(s, SeekPos(to, false, true), PutN(chars));
  }

  /** Seeking with the read head and then reading delivers the characters at the place sought. */
  lemma {:induction false} SeekThenRead(s: Stream, to: nat, count: nat)
    requires InBounds(s) && s.canRead && to <= |s.data|
    ensures ValidRun(s, [SeekPos(to, true, false), GetN(count)])
    ensures Delivered(s, [SeekPos(to, true, false), GetN(count)]) == s.data[to..to + Min(count, |s.data| - to)]
    ensures After(s, [SeekPos(to, true, false), GetN(count)]).position == to + Min(count, |s.data| - to)
  {
    hide Step;
    SeekPosExactly(s, to, true, false);
    var s1 := Step(s, SeekPos(to, true, false)).0;
    assert s1.data == s.data;
    GetNExactly(s1, count);
    TwoSteps(s, SeekPos(to, true, false), GetN(count));
  }

  lemma TwoSteps(s: Stream, a: Op, b: Op)
    requires InBounds(s) && Legal(s, a) && Legal(Step(s, a).0, b)
    ensures var s1 := Step(s, a).0;
      && ValidRun(s, [a, b]) && After(s, [a, b]) == Step(s1, b).0
      && Delivered(s, [a, b]) == CharsOf(a, Step(s, a).1) + CharsOf(b, Step(s1, b).1)
  {
    hide Step, Legal, CharsOf;
    var s1 := Step(s, a).0;
    var s2 := Step(s1, b).0;
    assert [a, b][1..] == [b] && [b][1..] == [];
    assert ValidRun(s2, []) && After(s2, []) == s2 && Delivered(s2, []) == [];
    assert ValidRun(s1, [b]) && After(s1, [b]) == s2;
    assert Delivered(s1, [b]) == CharsOf(b, Step(s1, b).1);
  }

  // ---------- blocks handed out for writing ----------

  /**
    `alloc` throws while a block is out and answers null without write access; else it grants the place of the position,
    and the container grows by zeros to hold the grant.
   */
  lemma AllocExactly(s: Stream, count: nat)
    requires InBounds(s)
    ensures var (r, reply) := Step(s, Alloc(count));
      if s.alloced then r == s && reply == Thrown
      else if !s.canWrite then r == s && reply == Grant(None)
      else
        && reply == Grant(Some(s.position)) && Grown(s.data, r.data, s.position + count)
        && r == Stream(r.data, s.position, s.canRead, true, true, s.eof)
  {
  }

  /** What the caller stores into the block goes where it says, and moves nothing. */
  lemma FillExactly(s: Stream, at: nat, chars: seq<Byte>)
    requires InBounds(s) && s.alloced && at + |chars| <= |s.data|
    ensures var (r, reply) := Step(s, Fill(at, chars));
      && reply == Done && Overwritten(s.data, r.data, at, chars)
      && r == Stream(r.data, s.position, s.canRead, s.canWrite, true, s.eof)
  {
  }

  /** `commit` throws if no block is out; else it moves behind what was committed and the block is no longer out. */
  lemma CommitExactly(s: Stream, count: nat)
    requires InBounds(s) && (s.alloced ==> s.position + count <= |s.data|)
    ensures var (r, reply) := Step(s, Commit(count));
      if s.alloced
      then reply == Done && r == Stream(s.data, s.position + count, s.canRead, s.canWrite, false, s.eof)
      else reply == Thrown && r == s
  {
  }

  /** `close` takes away the heads named, and nothing else. */
  lemma CloseExactly(s: Stream, read: bool, write: bool)
    requires InBounds(s)
    ensures Step(s, Close(read, write))
         == (Stream(s.data, s.position, s.canRead && !read, s.canWrite && !write, s.alloced, s.eof), Done)
  {
  }
}

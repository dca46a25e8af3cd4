/** The synchronous adapter's read loop, over any source and over the container buffer. */
module InteropStream {
  import opened ContainerBuffer
  import opened StreamLaws

  /**
    A source that answers a read with one to `count` of its remaining characters, as many as it likes, and none at
    its end.
   */
  class Source {
    var rest: seq<Byte>

    constructor (chars: seq<Byte>)
      ensures rest == chars
    {
      rest := chars;
    }

    method GetN(ptr: array<Byte>, at: nat, count: nat) returns (n: nat)
      requires at + count <= ptr.Length
      modifies this, ptr
      ensures n <= count && n <= |old(rest)| && (n == 0 <==> count == 0 || old(rest) == [])
      ensures rest == old(rest)[n..] && ptr[..] == Stored(old(ptr[..]), at, old(rest)[..n])
    {
      n := 0;
      if count > 0 && rest != [] {
        n :| 1 <= n <= count && n <= |rest|;
      }
      ghost var was := ptr[..];
      forall k | 0 <= k < n {
        ptr[at + k] := rest[k];
      }
      assert ptr[..] == Stored(was, at, rest[..n]);
      rest := rest[n..];
    }
  }

  lemma StoredTwice(was: seq<Byte>, all: seq<Byte>, m: nat, n: nat)
    requires m + n <= |all| && m + n <= |was|
    ensures Stored(Stored(was, 0, all[..m]), m, all[m..][..n]) == Stored(was, 0, all[..m + n])
  {
    assert all[..m + n] == all[..m] + all[m..][..n];
  }

  lemma StoredNothing(was: seq<Byte>, at: nat)
    requires at <= |was|
    ensures Stored(was, at, []) == was
  {
  }

  function Least(m: nat, n: nat): nat {
    if m < n then m else n
  }

  /** Delivers exactly the next min(count, remaining) characters, however the source splits its answers. */
  method XsGetN(buffer: Source, ptr: array<Byte>, count: nat) returns (readSoFar: nat)
    requires count <= ptr.Length
    modifies buffer, ptr
    ensures readSoFar == Least(count, |old(buffer.rest)|)
    ensures buffer.rest == old(buffer.rest)[readSoFar..]
    ensures ptr[..] == Stored(old(ptr[..]), 0, old(buffer.rest)[..readSoFar])
  {
    readSoFar := 0;
    ghost var was, all := ptr[..], buffer.rest;
    StoredNothing(was, 0);
    while readSoFar < count
      invariant readSoFar <= count && readSoFar <= |all|
      invariant buffer.rest == all[readSoFar..]
      invariant ptr[..] == Stored(was, 0, all[..readSoFar])
    {
      var rd := buffer.GetN(ptr, readSoFar, count - readSoFar);
      StoredTwice(was, all, readSoFar, rd);
      readSoFar := readSoFar + rd;
      if rd == 0 {
        break;
      }
    }
  }

  /**
    Over the container buffer one `xsgetn` is one direct read, characters and position alike; the flag
    differs: the loop asks again after a short answer, and so has found the end whenever it asked for more than
    there was.
   */
  method XsGetNOfContainer(buffer: ContainerBuffer, ptr: array<Byte>, count: nat) returns (readSoFar: nat)
    requires buffer.Valid() && count <= ptr.Length
    modifies buffer, ptr
    ensures buffer.Valid() && readSoFar <= count
    ensures SameButEof(Step(old(buffer.View()), GetN(count)).0, buffer.View())
    ensures Chars(ptr[..readSoFar]) == Step(old(buffer.View()), GetN(count)).1
    ensures ptr[..] == Stored(old(ptr[..]), 0, ptr[..readSoFar])
    ensures buffer.eof == if buffer.canRead && count > 0 then count > Available(old(buffer.View())) else old(buffer.eof)
  {
    hide Step, Next, Stored;
    readSoFar := 0;
    ghost var was, s := ptr[..], buffer.View();
    ghost var all := if s.canRead then s.data[s.position..] else [];
    StoredNothing(was, 0);
    while readSoFar < count
      invariant buffer.Valid() && readSoFar <= count && readSoFar <= |all|
      invariant buffer.View() == s.(position := s.position + readSoFar, eof := buffer.eof)
      invariant ptr[..] == Stored(was, 0, all[..readSoFar])
      invariant if readSoFar == 0 then buffer.eof == s.eof else !buffer.eof
    {
      ghost var before := buffer.View();
      GetNOfRest(s, before, all, readSoFar, count - readSoFar);
      ghost var r := Step(before, GetN(count - readSoFar));
      ghost var chars := all[readSoFar..][..Least(count - readSoFar, |all| - readSoFar)];
      var rd := buffer.GetN(ptr, readSoFar, count - readSoFar);
      assert (buffer.View(), Chars(ptr[readSoFar..readSoFar + rd])) == r;
      assert ptr[readSoFar..readSoFar + rd] == chars && rd == |chars|;
      StoredTwice(was, all, readSoFar, rd);
      readSoFar := readSoFar + rd;
      if rd == 0 {
        break;
      }
    }
    StoredPrefix(was, all[..readSoFar]);
    assert ptr[..readSoFar] == ptr[..][..readSoFar] == all[..readSoFar];
    DirectRead(s, all, count);
  }

  /** What the container answers once `done` characters have been read. */
  lemma GetNOfRest(s: Stream, before: Stream, all: seq<Byte>, done: nat, n: nat)
    requires InBounds(s) && all == if s.canRead then s.data[s.position..] else []
    requires InBounds(before) && done <= |all| && n > 0
      && before == s.(position := s.position + done, eof := before.eof)
    ensures var r := Step(before, GetN(n));
      && r.1 == Chars(all[done..][..Least(n, |all| - done)])
      && r.0 == s.(position := s.position + done + Least(n, |all| - done),
                   eof := if s.canRead then done == |all| else before.eof)
  {
  }

  lemma StoredPrefix(was: seq<Byte>, chars: seq<Byte>)
    requires |chars| <= |was|
    ensures Stored(was, 0, chars)[..|chars|] == chars
  {
  }

  lemma DirectRead(s: Stream, all: seq<Byte>, count: nat)
    requires InBounds(s) && all == if s.canRead then s.data[s.position..] else []
    ensures Step(s, GetN(count)).1 == Chars(all[..Least(count, |all|)])
    ensures SameButEof(s.(position := s.position + Least(count, |all|)), Step(s, GetN(count)).0)
  {
    assert count == 0 ==> all[..0] == [];
  }
}

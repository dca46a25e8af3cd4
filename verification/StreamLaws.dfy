/** What every run of operations on a container buffer keeps, and what cutting reads and writes does not change. */
module StreamLaws {
  import opened ContainerBuffer

  // ---------- runs ----------

  predicate ValidRun(s: Stream, ops: seq<Op>)
    requires InBounds(s)
    decreases |ops|
  {
    ops == [] || (Legal(s, ops[0]) && ValidRun(Step(s, ops[0]).0, ops[1..]))
  }

  function After(s: Stream, ops: seq<Op>): (r: Stream)
    requires InBounds(s) && ValidRun(s, ops)
    ensures InBounds(r)
    decreases |ops|
  {
    if ops == [] then s else After(Step(s, ops[0]).0, ops[1..])
  }

  /** The characters an operation hands to its caller; `putc` answers with the character it was given. */
  function CharsOf(op: Op, r: Reply): seq<Byte> {
    match r
    case Chars(chars) => chars
    case Char(c) => if c.None? || op.PutC? then [] else [c.value]
    case Block(_, chars) => chars
    case _ => []
  }

  /** All characters handed out along a run, in order. */
  function Delivered(s: Stream, ops: seq<Op>): seq<Byte>
    requires InBounds(s) && ValidRun(s, ops)
    decreases |ops|
  {
    if ops == [] then [] else CharsOf(ops[0], Step(s, ops[0]).1) + Delivered(Step(s, ops[0]).0, ops[1..])
  }

  /** Equal but for the flag that says whether the last read found the end. */
  predicate SameButEof(s: Stream, r: Stream) {
    r == s.(eof := r.eof)
  }

  // ---------- every run ----------

  predicate OneMode(s: Stream) {
    InBounds(s) && !(s.canRead && s.canWrite)
  }

  lemma StepKeepsMode(s: Stream, op: Op)
    requires OneMode(s) && Legal(s, op)
    ensures var r := Step(s, op).0;
      OneMode(r) && |r.data| >= |s.data| && (r.canRead ==> s.canRead) && (r.canWrite ==> s.canWrite)
  {
    hide Next, Peek, Stored, Zeros, Resized;
  }

  lemma {:induction false} RunStaysInBounds(s: Stream, ops: seq<Op>)
    requires OneMode(s) && ValidRun(s, ops)
    ensures OneMode(After(s, ops)) && |After(s, ops).data| >= |s.data|
    ensures (After(s, ops).canRead ==> s.canRead) && (After(s, ops).canWrite ==> s.canWrite)
    decreases |ops|
  {
    hide Step, Legal;
    if ops != [] {
      StepKeepsMode(s, ops[0]);
      RunStaysInBounds(Step(s, ops[0]).0, ops[1..]);
    }
  }

  predicate ReadOnly(s: Stream) {
    InBounds(s) && !s.canWrite && !s.alloced
  }

  lemma StepReadsOnly(s: Stream, op: Op)
    requires ReadOnly(s) && Legal(s, op)
    ensures var r := Step(s, op).0; ReadOnly(r) && r.data == s.data && (r.canRead ==> s.canRead)
  {
  }

  lemma {:induction false} RunReadsOnly(s: Stream, ops: seq<Op>)
    requires ReadOnly(s) && ValidRun(s, ops)
    ensures var r := After(s, ops); ReadOnly(r) && r.data == s.data && (r.canRead ==> s.canRead)
    decreases |ops|
  {
    hide Step, Legal;
    if ops != [] {
      StepReadsOnly(s, ops[0]);
      RunReadsOnly(Step(s, ops[0]).0, ops[1..]);
    }
  }

  /** No run changes the contents of a buffer that is open for reading; seeking back restores it whole. */
  lemma ReadingRunCanBeUndone(s: Stream, ops: seq<Op>)
    requires ReadOnly(s) && ValidRun(s, ops)
    ensures After(s, ops).data == s.data
    ensures After(s, ops).canRead ==> SameButEof(s, Step(After(s, ops), SeekPos(s.position, true, false)).0)
  {
    RunReadsOnly(s, ops);
  }

  lemma StepDeliversNothing(s: Stream, op: Op)
    requires InBounds(s) && !s.canRead && Legal(s, op)
    ensures !Step(s, op).0.canRead && CharsOf(op, Step(s, op).1) == [] && (Step(s, op).0.eof ==> s.eof)
  {
    hide Stored, Resized;
  }

  /** A buffer that is not open for reading answers no character, whatever is written to it. */
  lemma {:induction false} WritingRunDeliversNothing(s: Stream, ops: seq<Op>)
    requires InBounds(s) && !s.canRead && ValidRun(s, ops)
    ensures Delivered(s, ops) == [] && (After(s, ops).eof ==> s.eof)
    decreases |ops|
  {
    hide Step, Legal, CharsOf;
    if ops != [] {
      StepDeliversNothing(s, ops[0]);
      WritingRunDeliversNothing(Step(s, ops[0]).0, ops[1..]);
    }
  }

  // ---------- reads can be cut anywhere ----------

  predicate IsRead(op: Op) {
    op.GetN? || op.BumpC?
  }

  predicate AllReads(ops: seq<Op>) {
    forall k :: 0 <= k < |ops| ==> IsRead(ops[k])
  }

  /** How many characters are asked for. */
  function Asked(op: Op): nat
    requires IsRead(op)
  {
    match op
    case GetN(count) => count
    case BumpC => 1
  }

  function AskedInAll(ops: seq<Op>): nat
    requires AllReads(ops)
  {
    if ops == [] then 0 else Asked(ops[0]) + AskedInAll(ops[1..])
  }

  lemma SkipTwice(s: Stream, s1: Stream, m: nat, n: nat)
    requires InBounds(s) && SameButEof(Skip(s, m), s1)
    ensures Next(s, m) + Next(s1, n) == Next(s, m + n)
    ensures SameButEof(Skip(s, m + n), Skip(s1, n))
  {
  }

  lemma OneRead(s: Stream, op: Op)
    requires InBounds(s) && s.canRead && IsRead(op)
    ensures Legal(s, op) && CharsOf(op, Step(s, op).1) == Next(s, Asked(op))
      && SameButEof(Skip(s, Asked(op)), Step(s, op).0)
    ensures Step(s, op).0.canRead && (Asked(op) > 0 ==> (Step(s, op).0.eof <==> Available(s) == 0))
  {
    assert Asked(op) == 0 ==> Next(s, 0) == [];
  }

  lemma {:induction false} CutReads(s: Stream, ops: seq<Op>)
    requires InBounds(s) && s.canRead && AllReads(ops)
    ensures ValidRun(s, ops) && Delivered(s, ops) == Next(s, AskedInAll(ops))
    ensures SameButEof(Skip(s, AskedInAll(ops)), After(s, ops))
    decreases |ops|
  {
    hide Step, Legal, Next, Skip, CharsOf, Asked;
    if ops == [] {
      NothingRead(s);
    } else {
      OneRead(s, ops[0]);
      var s1 := Step(s, ops[0]).0;
      CutReads(s1, ops[1..]);
      SkipTwice(s, s1, Asked(ops[0]), AskedInAll(ops[1..]));
    }
  }

  lemma NothingRead(s: Stream)
    requires InBounds(s)
    ensures Next(s, 0) == [] && SameButEof(Skip(s, 0), s)
  {
  }

  /** However a read is cut into `getn` and `bumpc`, it delivers the same characters and ends at the same position. */
  lemma {:induction false} AnyCutReadsTheSame(s: Stream, ops: seq<Op>)
    requires InBounds(s) && s.canRead && AllReads(ops)
    ensures ValidRun(s, ops)
    ensures Chars(Delivered(s, ops)) == Step(s, GetN(AskedInAll(ops))).1
    ensures SameButEof(Step(s, GetN(AskedInAll(ops))).0, After(s, ops))
  {
    hide ValidRun, After, Delivered, AskedInAll, AllReads, Next;
    CutReads(s, ops);
    OneRead(s, GetN(AskedInAll(ops)));
    NothingRead(s);
  }

  /** The flag after a last read says exactly that the reads before it had exhausted the stream. */
  lemma {:induction false} EofMeansExhausted(s: Stream, ops: seq<Op>, last: Op)
    requires InBounds(s) && s.canRead && AllReads(ops) && IsRead(last) && Asked(last) > 0
    ensures ValidRun(s, ops) && Legal(After(s, ops), last)
    ensures Step(After(s, ops), last).0.eof <==> AskedInAll(ops) >= Available(s)
  {
    hide ValidRun, After, AskedInAll, AllReads, Step, Asked;
    CutReads(s, ops);
    OneRead(After(s, ops), last);
  }

  // ---------- writes can be cut anywhere ----------

  function Concat(parts: seq<seq<Byte>>): seq<Byte> {
    if parts == [] then [] else parts[0] + Concat(parts[1..])
  }

  predicate IsWrite(op: Op) {
    op.PutN? || op.PutC?
  }

  predicate AllWrites(ops: seq<Op>) {
    forall k :: 0 <= k < |ops| ==> IsWrite(ops[k])
  }

  function Sent(op: Op): seq<Byte>
    requires IsWrite(op)
  {
    match op
    case PutN(chars) => chars
    case PutC(c) => [c]
  }

  function SentInAll(ops: seq<Op>): seq<Byte>
    requires AllWrites(ops)
  {
    if ops == [] then [] else Sent(ops[0]) + SentInAll(ops[1..])
  }

  lemma WrittenAt(s: Stream, chars: seq<Byte>, i: nat)
    requires InBounds(s)
    ensures var r := Written(s, chars);
      && |r.data| == (if s.position + |chars| > |s.data| then s.position + |chars| else |s.data|)
      && (i < |r.data| ==>
           r.data[i] == if s.position <= i < s.position + |chars| then chars[i - s.position] else s.data[i])
  {
  }

  lemma WrittenTwice(s: Stream, a: seq<Byte>, b: seq<Byte>)
    requires InBounds(s)
    ensures InBounds(Written(s, a)) && Written(Written(s, a), b) == Written(s, a + b)
  {
    hide Stored, Resized;
    var m, w, r := Written(s, a), Written(Written(s, a), b), Written(s, a + b);
    forall i: nat ensures |w.data| == |r.data| && (i < |r.data| ==> w.data[i] == r.data[i]) {
      WrittenAt(s, a, i);
      WrittenAt(m, b, i);
      WrittenAt(s, a + b, i);
    }
    assert w.data == r.data;
  }

  lemma WrittenNothing(s: Stream)
    requires InBounds(s)
    ensures Written(s, []) == s
  {
    assert Stored(s.data, s.position, []) == s.data;
  }

  lemma {:induction false} CutWrites(s: Stream, ops: seq<Op>)
    requires InBounds(s) && s.canWrite && AllWrites(ops)
    ensures ValidRun(s, ops) && SameButEof(Written(s, SentInAll(ops)), After(s, ops))
    decreases |ops|
  {
    hide Step, Legal, Written, Sent;
    if ops != [] {
      OneWrite(s, ops[0]);
      var s1 := Step(s, ops[0]).0;
      CutWrites(s1, ops[1..]);
      WrittenTwice(s, Sent(ops[0]), SentInAll(ops[1..]));
      WrittenIgnoresEof(Written(s, Sent(ops[0])), s1, SentInAll(ops[1..]));
    } else {
      WrittenNothing(s);
    }
  }

  /** However a write is cut into `putn` and `putc`, it leaves the same stream. */
  lemma {:induction false} AnyCutWritesTheSame(s: Stream, ops: seq<Op>)
    requires InBounds(s) && s.canWrite && AllWrites(ops)
    ensures ValidRun(s, ops)
    ensures SameButEof(Step(s, PutN(SentInAll(ops))).0, After(s, ops))
  {
    hide Step, Legal, Written, ValidRun, After, SentInAll, AllWrites;
    CutWrites(s, ops);
    WriteOfPutN(s, SentInAll(ops));
  }

  lemma OneWrite(s: Stream, op: Op)
    requires InBounds(s) && s.canWrite && IsWrite(op)
    ensures Legal(s, op) && SameButEof(Written(s, Sent(op)), Step(s, op).0) && Step(s, op).0.canWrite
  {
    WrittenNothing(s);
  }

  lemma WriteOfPutN(s: Stream, chars: seq<Byte>)
    requires InBounds(s) && s.canWrite
    ensures Legal(s, PutN(chars)) && SameButEof(Written(s, chars), Step(s, PutN(chars)).0)
    ensures Step(s, PutN(chars)).0.canWrite
  {
    WrittenNothing(s);
  }

  lemma WrittenIgnoresEof(s: Stream, s1: Stream, chars: seq<Byte>)
    requires InBounds(s) && SameButEof(s, s1)
    ensures SameButEof(Written(s, chars), Written(s1, chars))
  {
  }

  /** Bytes written into an empty container by any cuts are read back from it by any cuts that ask for enough. */
  lemma {:induction false} WriteThenRead(puts: seq<Op>, gets: seq<Op>)
    requires AllWrites(puts) && AllReads(gets) && AskedInAll(gets) >= |SentInAll(puts)|
    ensures var out := Stream([], 0, false, true, false, false);
      && ValidRun(out, puts)
      && var back := Stream(After(out, puts).data, 0, true, false, false, false);
         ValidRun(back, gets) && Delivered(back, gets) == SentInAll(puts)
  {
    hide ValidRun, After, Delivered, AskedInAll, SentInAll, AllReads, AllWrites;
    var out := Stream([], 0, false, true, false, false);
    CutWrites(out, puts);
    assert Written(out, SentInAll(puts)).data == SentInAll(puts);
    var back := Stream(After(out, puts).data, 0, true, false, false, false);
    CutReads(back, gets);
    assert Next(back, AskedInAll(gets)) == SentInAll(puts);
  }

  // ---------- alloc, fill, commit ----------

  function Grants(s: Stream, count: nat, chars: seq<Byte>): seq<Op> {
    [Alloc(count), Fill(s.position, chars), Commit(|chars|)]
  }

  /** What `alloc` of `count`, storing `chars` and committing them leaves. */
  function Granted(s: Stream, count: nat, chars: seq<Byte>): (r: Stream)
    requires InBounds(s) && |chars| <= count
    ensures InBounds(r)
  {
    s.(data := Stored(Resized(s.data, s.position + count), s.position, chars), position := s.position + |chars|)
  }

  lemma GrantsLeave(s: Stream, count: nat, chars: seq<Byte>)
    requires InBounds(s) && s.canWrite && !s.alloced && |chars| <= count
    ensures ValidRun(s, Grants(s, count, chars)) && After(s, Grants(s, count, chars)) == Granted(s, count, chars)
  {
    var ops := Grants(s, count, chars);
    var s1 := Step(s, ops[0]).0;
    var s2 := Step(s1, ops[1]).0;
    assert ops[1..][0] == ops[1] && ops[1..][1..] == [ops[2]] && [ops[2]][1..] == [];
    assert ValidRun(Step(s2, ops[2]).0, []);
    assert ValidRun(s2, [ops[2]]) && After(s2, [ops[2]]) == Step(s2, ops[2]).0;
    assert ValidRun(s1, ops[1..]) && After(s1, ops[1..]) == After(s2, [ops[2]]);
  }

  lemma GrantedAndWritten(s: Stream, count: nat, chars: seq<Byte>)
    requires InBounds(s) && |chars| <= count
    ensures var g, w := Granted(s, count, chars), Written(s, chars);
      && InBounds(g) && w.data <= g.data && g.position == w.position
      && (g.data == w.data <==> |chars| == count || s.position + count <= |s.data|)
      && (forall i :: |w.data| <= i < |g.data| ==> g.data[i] == 0)
  {
    var g, w := Granted(s, count, chars), Written(s, chars);
    assert g.data[..|w.data|] == w.data;
  }

  /**
    Filling and committing characters gives the position of writing them, and the same bytes up to the end of those.
    The containers are the same whole if, and only if, everything granted was committed or lay within the old size:
    otherwise the rest of the grant stays behind, as zeros.
   */
  lemma {:induction false} GrantIsPutN(s: Stream, count: nat, chars: seq<Byte>)
    requires InBounds(s) && s.canWrite && !s.alloced && |chars| <= count
    ensures ValidRun(s, Grants(s, count, chars))
    ensures var g, w := After(s, Grants(s, count, chars)), Step(s, PutN(chars)).0;
      && w.data <= g.data && g.position == w.position
      && (SameButEof(w, g) <==> |chars| == count || s.position + count <= |s.data|)
      && (forall i :: |w.data| <= i < |g.data| ==> g.data[i] == 0)
  {
    hide Step, Granted, Written, ValidRun, After, Grants;
    GrantsLeave(s, count, chars);
    GrantedAndWritten(s, count, chars);
    WriteOfPutN(s, chars);
    GrantedFlags(s, count, chars);
  }

  lemma GrantedFlags(s: Stream, count: nat, chars: seq<Byte>)
    requires InBounds(s) && |chars| <= count
    ensures var g, w := Granted(s, count, chars), Written(s, chars);
      && g.canRead == w.canRead == s.canRead && g.canWrite == w.canWrite == s.canWrite
      && g.alloced == w.alloced == s.alloced
  {
  }

  /** Equal up to the position, which is what a writer that never seeks has written. */
  predicate SameWritten(s: Stream, r: Stream) {
    && InBounds(s) && InBounds(r) && s.position == r.position && s.data[..s.position] == r.data[..r.position]
    && s.canWrite == r.canWrite && s.alloced == r.alloced
  }

  /** Every part fits into its grant. */
  predicate Fitting(counts: seq<nat>, parts: seq<seq<Byte>>) {
    |counts| == |parts| && forall k :: 0 <= k < |counts| ==> |parts[k]| <= counts[k]
  }

  /** One allocation after the other, each filled and committed with one of the parts. */
  function GrantRun(s: Stream, counts: seq<nat>, parts: seq<seq<Byte>>): seq<Op>
    requires InBounds(s) && Fitting(counts, parts)
    decreases |counts|
  {
    if counts == [] then []
    else Grants(s, counts[0], parts[0]) + GrantRun(Granted(s, counts[0], parts[0]), counts[1..], parts[1..])
  }

  lemma {:induction false} RunAppend(s: Stream, a: seq<Op>, b: seq<Op>)
    requires InBounds(s) && ValidRun(s, a) && ValidRun(After(s, a), b)
    ensures ValidRun(s, a + b) && After(s, a + b) == After(After(s, a), b)
    decreases |a|
  {
    hide Step, Legal;
    if a == [] {
      assert a + b == b;
    } else {
      RunAppend(Step(s, a[0]).0, a[1..], b);
      assert (a + b)[1..] == a[1..] + b;
    }
  }

  lemma WrittenFrom(s: Stream, r: Stream, chars: seq<Byte>)
    requires SameWritten(s, r)
    ensures SameWritten(Written(s, chars), Written(r, chars))
  {
    var a, b := Written(s, chars), Written(r, chars);
    assert a.data[..a.position] == s.data[..s.position] + chars;
    assert b.data[..b.position] == r.data[..r.position] + chars;
  }

  lemma {:induction false} GrantRunWrites(s: Stream, counts: seq<nat>, parts: seq<seq<Byte>>)
    requires InBounds(s) && s.canWrite && !s.alloced && Fitting(counts, parts)
    ensures ValidRun(s, GrantRun(s, counts, parts))
    ensures SameWritten(Written(s, Concat(parts)), After(s, GrantRun(s, counts, parts)))
    decreases |counts|
  {
    hide Granted, Written, Grants, Step, Legal;
    if counts == [] {
      WrittenNothing(s);
    } else {
      var g, w := Granted(s, counts[0], parts[0]), Written(s, parts[0]);
      GrantsLeave(s, counts[0], parts[0]);
      GrantedAndWritten(s, counts[0], parts[0]);
      assert w.data[..w.position] == g.data[..w.position];
      GrantedFlags(s, counts[0], parts[0]);
      GrantRunWrites(g, counts[1..], parts[1..]);
      RunAppend(s, Grants(s, counts[0], parts[0]), GrantRun(g, counts[1..], parts[1..]));
      WrittenFrom(w, g, Concat(parts[1..]));
      WrittenTwice(s, parts[0], Concat(parts[1..]));
    }
  }

  /**
    Any number of allocations in a row, each committing part of its grant, write what one `putn` of the parts writes.
   */
  lemma {:induction false} GrantRunIsPutN(s: Stream, counts: seq<nat>, parts: seq<seq<Byte>>)
    requires InBounds(s) && s.canWrite && !s.alloced && Fitting(counts, parts)
    ensures ValidRun(s, GrantRun(s, counts, parts))
    ensures SameWritten(Step(s, PutN(Concat(parts))).0, After(s, GrantRun(s, counts, parts)))
  {
    hide Step, Written, ValidRun, After, GrantRun, Concat;
    GrantRunWrites(s, counts, parts);
    WriteOfPutN(s, Concat(parts));
  }

  // ---------- the other ways to read ----------

  /** Acquiring the block and releasing some of it is reading that much; looking ahead with `scopy` changes nothing. */
  lemma AcquireReleaseIsGetN(s: Stream, count: nat)
    requires InBounds(s) && s.canRead && count <= Available(s)
    ensures Step(s, Acquire).0 == s && Step(s, Acquire).1.Block? && count <= |Step(s, Acquire).1.chars|
    ensures Chars(Step(s, Acquire).1.chars[..count]) == Step(s, GetN(count)).1 == Step(s, SCopy(count)).1
    ensures SameButEof(Step(s, Release(false, count)).0, Step(s, GetN(count)).0) && Step(s, SCopy(count)).0 == s
  {
    assert s.data[s.position..][..count] == Next(s, count);
    OneRead(s, GetN(count));
  }

  // ---------- ungetc ----------

  /** `ungetc` takes back a `bumpc` exactly when that read a character, or there was none to step back over. */
  lemma UngetUndoesBump(s: Stream)
    requires InBounds(s) && s.canRead
    ensures var s1 := Step(s, BumpC).0;
      && (SameButEof(s, Step(s1, UngetC).0) <==> Available(s) > 0 || s.position == 0)
      && (Available(s) > 0 ==> Step(s1, UngetC).1 == Step(s, BumpC).1)
  {
    assert |Next(s, 1)| == if Available(s) > 0 then 1 else 0;
  }

}

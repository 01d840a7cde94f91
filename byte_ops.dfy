/**
 * The contents of a MutableBytes buffer as a value, and what each of its
 * mutators does to them. The class in mutable_bytes.dfy is proved against
 * these functions; the lemmas here are about chains of mutator calls.
 */
module ByteOps {
  import opened Wrappers

  /** A Java `byte`, taken as its 8-bit pattern: the mutators only copy bytes. */
  type byte = bv8

  /** The exceptions the mutators can throw. */
  datatype Error =
    | NullPointer(message: string)  // from Objects.requireNonNull
    | IndexOutOfBounds              // from the range check of System.arraycopy

  const SourceNullMessage: string := "must provide non-null array as source"
  const RandomNullMessage: string := "must non-null random"

  /** What a mutator call leaves behind: the buffer's contents and the exception it threw, if any. */
  datatype Outcome = Outcome(contents: seq<byte>, thrown: Option<Error>)

  /**
   * The output a random generator has still to hand out: `s(k)` is the byte it
   * produces k-th from now. Any stream may be given, so any output is covered.
   */
  type ByteStream = nat -> byte

  /** What is left of the stream `s` once its first `n` bytes are handed out. */
  function Skip(s: ByteStream, n: nat): (r: ByteStream)
    ensures forall k: nat :: r(k) == s(n + k)
  {
    (k: nat) => s(n + k)
  }

  /** The range check of System.arraycopy for a copy of `srcLen` bytes to position `off`. */
  predicate InRange(srcLen: nat, off: int, destLen: nat)
  {
    0 <= off && off + srcLen <= destLen
  }

  /** `buf` with the bytes from `off` on replaced by `src`. */
  function Overwritten(buf: seq<byte>, src: seq<byte>, off: nat): (r: seq<byte>)
    requires off + |src| <= |buf|
    ensures |r| == |buf|
    ensures forall i :: 0 <= i < |src| ==> r[off + i] == src[i]
    ensures forall i :: 0 <= i < |buf| && !(off <= i < off + |src|) ==> r[i] == buf[i]
  {
    buf[..off] + src + buf[off + |src|..]
  }

  /** A buffer of `n` bytes, every one of them `b`. */
  function Filled(n: nat, b: byte): (r: seq<byte>)
    ensures |r| == n
    ensures forall i :: 0 <= i < n ==> r[i] == b
  {
    seq(n, _ => b)
  }

  /** The next `n` bytes of the stream `s`. */
  function Drawn(s: ByteStream, n: nat): (r: seq<byte>)
    ensures |r| == n
    ensures forall i :: 0 <= i < n ==> r[i] == s(i)
  {
    seq(n, i requires 0 <= i => s(i))
  }

  /**
   * overwrite(newArray, offset): a null source is rejected first, then the range
   * is checked, and only then is anything written; so a call either writes all
   * of the source or leaves the buffer as it was.
   */
  function AfterOverwrite(buf: seq<byte>, src: Option<seq<byte>>, off: int): (r: Outcome)
    ensures |r.contents| == |buf|
    ensures r.thrown.None? <==> src.Some? && InRange(|src.value|, off, |buf|)
    ensures src.None? ==> r.thrown == Some(NullPointer(SourceNullMessage))
    ensures src.Some? && !InRange(|src.value|, off, |buf|) ==> r.thrown == Some(IndexOutOfBounds)
    ensures r.thrown.Some? ==> r.contents == buf
    ensures r.thrown.None? ==>
              (forall i :: 0 <= i < |src.value| ==> r.contents[off + i] == src.value[i]) &&
              (forall i :: 0 <= i < |buf| && !(off <= i < off + |src.value|) ==> r.contents[i] == buf[i])
  {
    match src
    case None => Outcome(buf, Some(NullPointer(SourceNullMessage)))
    case Some(s) =>
      if InRange(|s|, off, |buf|) then Outcome(Overwritten(buf, s, off), None)
      else Outcome(buf, Some(IndexOutOfBounds))
  }

  /** fill(b): every byte becomes `b`; it never throws. */
  function AfterFill(buf: seq<byte>, b: byte): (r: Outcome)
    ensures r.thrown.None? && |r.contents| == |buf|
    ensures forall i :: 0 <= i < |buf| ==> r.contents[i] == b
  {
    Outcome(Filled(|buf|, b), None)
  }

  /** wipe(): fill(0). */
  function AfterWipe(buf: seq<byte>): (r: Outcome)
    ensures r.thrown.None? && |r.contents| == |buf|
    ensures forall i :: 0 <= i < |buf| ==> r.contents[i] == 0
  {
    AfterFill(buf, 0)
  }

  /**
   * secureWipe(random): a null generator is rejected before anything changes;
   * otherwise every byte is replaced by the generator's next output, whatever
   * the buffer held before.
   */
  function AfterSecureWipe(buf: seq<byte>, random: Option<ByteStream>): (r: Outcome)
    ensures |r.contents| == |buf|
    ensures random.None? <==> r.thrown == Some(NullPointer(RandomNullMessage))
    ensures random.Some? <==> r.thrown.None?
    ensures random.None? ==> r.contents == buf
    ensures random.Some? ==> forall i :: 0 <= i < |buf| ==> r.contents[i] == random.value(i)
  {
    match random
    case None => Outcome(buf, Some(NullPointer(RandomNullMessage)))
    case Some(s) => Outcome(Drawn(s, |buf|), None)
  }

  /**
   * One mutator call. overwrite(a) is Overwrite(a, 0), and secureWipe() is
   * SecureWipe(Some(s)) for the stream s of a freshly made generator.
   */
  datatype Op =
    | Overwrite(src: Option<seq<byte>>, off: int)
    | Fill(value: byte)
    | Wipe
    | SecureWipe(random: Option<ByteStream>)

  /** Every mutator keeps the length, and one that throws leaves the buffer untouched. */
  function Step(buf: seq<byte>, op: Op): (r: Outcome)
    ensures |r.contents| == |buf|
    ensures r.thrown.Some? ==> r.contents == buf
  {
    match op
    case Overwrite(src, off) => AfterOverwrite(buf, src, off)
    case Fill(b) => AfterFill(buf, b)
    case Wipe => AfterWipe(buf)
    case SecureWipe(random) => AfterSecureWipe(buf, random)
  }

  /**
   * A chain of calls on one instance, `m.op0(..).op1(..)...`: each call works
   * on what the one before left, and the first exception ends the chain with
   * the buffer as that failing call found it.
   */
  function Run(buf: seq<byte>, ops: seq<Op>): Outcome
    decreases |ops|
  {
    if ops == [] then Outcome(buf, None)
    else
      var o := Step(buf, ops[0]);
      if o.thrown.Some? then o else Run(o.contents, ops[1..])
  }

  /** Carries on a chain after `o`, unless `o` ended in an exception. */
  function Continue(o: Outcome, ops: seq<Op>): Outcome
  {
    if o.thrown.Some? then o else Run(o.contents, ops)
  }

  /** No chain of mutator calls changes the buffer's length. */
  lemma {:induction false} RunKeepsLength(buf: seq<byte>, ops: seq<Op>)
    ensures |Run(buf, ops).contents| == |buf|
    decreases |ops|
  {
    if ops != [] {
      var o := Step(buf, ops[0]);
      if o.thrown.None? {
        RunKeepsLength(o.contents, ops[1..]);
      }
    }
  }

  /** A chain split in two: the second part runs on what the first left, if it did not throw. */
  lemma {:induction false} RunAppend(buf: seq<byte>, xs: seq<Op>, ys: seq<Op>)
    ensures Run(buf, xs + ys) == Continue(Run(buf, xs), ys)
    decreases |xs|
  {
    if xs == [] {
      assert xs + ys == ys;
    } else {
      assert (xs + ys)[0] == xs[0];
      assert (xs + ys)[1..] == xs[1..] + ys;
      var o := Step(buf, xs[0]);
      if o.thrown.None? {
        RunAppend(o.contents, xs[1..], ys);
      }
    }
  }

  /**
   * Two calls that have the same effect on every buffer can stand in for each
   * other anywhere in a chain.
   */
  lemma {:induction false} RunReplace(buf: seq<byte>, xs: seq<Op>, p: Op, q: Op, ys: seq<Op>)
    requires forall b: seq<byte> :: Step(b, p) == Step(b, q)
    ensures Run(buf, xs + [p] + ys) == Run(buf, xs + [q] + ys)
  {
    RunAppend(buf, xs, [p] + ys);
    RunAppend(buf, xs, [q] + ys);
    assert xs + [p] + ys == xs + ([p] + ys);
    assert xs + [q] + ys == xs + ([q] + ys);
    var o := Run(buf, xs);
    if o.thrown.None? {
      assert ([p] + ys)[0] == p && ([p] + ys)[1..] == ys;
      assert ([q] + ys)[0] == q && ([q] + ys)[1..] == ys;
      assert Step(o.contents, p) == Step(o.contents, q);
    }
  }

  /** wipe() is fill(0), anywhere in a chain. */
  lemma WipeIsFillZero(buf: seq<byte>, xs: seq<Op>, ys: seq<Op>)
    ensures Run(buf, xs + [Wipe] + ys) == Run(buf, xs + [Fill(0)] + ys)
  {
    RunReplace(buf, xs, Wipe, Fill(0), ys);
  }

  /** fill(b).fill(b) ends as fill(b) does, anywhere in a chain. */
  lemma FillIdempotent(buf: seq<byte>, xs: seq<Op>, b: byte, ys: seq<Op>)
    ensures Run(buf, xs + [Fill(b), Fill(b)] + ys) == Run(buf, xs + [Fill(b)] + ys)
  {
    assert xs + [Fill(b), Fill(b)] + ys == xs + [Fill(b)] + ([Fill(b)] + ys);
    assert xs + [Fill(b)] + ys == xs + [Fill(b)] + ys;
    RunAppend(buf, xs + [Fill(b)], [Fill(b)] + ys);
    RunAppend(buf, xs + [Fill(b)], ys);
    var o := Run(buf, xs + [Fill(b)]);
    if o.thrown.None? {
      RunAppend(buf, xs, [Fill(b)]);
      RunKeepsLength(buf, xs);
      var before := Run(buf, xs);
      assert [Fill(b)][0] == Fill(b) && [Fill(b)][1..] == [];
      assert before.thrown.None?;
      var s := Step(before.contents, Fill(b));
      assert Run(s.contents, []) == s;
      assert Run(before.contents, [Fill(b)]) == s;
      assert o == s;
      assert ([Fill(b)] + ys)[0] == Fill(b) && ([Fill(b)] + ys)[1..] == ys;
      assert Step(o.contents, Fill(b)) == o;
    }
  }

  /**
   * A chain that ends in wipe() and reaches it leaves only zeros, whatever
   * came before.
   */
  lemma WipeLeavesZeros(buf: seq<byte>, xs: seq<Op>)
    requires Run(buf, xs).thrown.None?
    ensures Run(buf, xs + [Wipe]) == Outcome(Filled(|buf|, 0), None)
  {
    RunAppend(buf, xs, [Wipe]);
    RunKeepsLength(buf, xs);
  }

  /**
   * A chain whose next call throws stops there: the exception is that call's,
   * the buffer is as the calls before it left it, and nothing after it runs.
   */
  lemma StopsAtFirstThrow(buf: seq<byte>, xs: seq<Op>, op: Op, ys: seq<Op>)
    requires Run(buf, xs).thrown.None?
    requires Step(Run(buf, xs).contents, op).thrown.Some?
    ensures Run(buf, xs + [op] + ys)
            == Outcome(Run(buf, xs).contents, Step(Run(buf, xs).contents, op).thrown)
  {
    assert xs + [op] + ys == xs + ([op] + ys);
    RunAppend(buf, xs, [op] + ys);
    assert ([op] + ys)[0] == op;
  }

  /** overwrite(a), that is, overwrite(a, 0): the prefix of length |a| becomes a, the rest stays. */
  lemma OverwriteFromStart(buf: seq<byte>, a: seq<byte>)
    ensures AfterOverwrite(buf, Some(a), 0)
            == if |a| <= |buf| then Outcome(a + buf[|a|..], None)
               else Outcome(buf, Some(IndexOutOfBounds))
  {
  }

  /**
   * Overwriting a range with the bytes it already holds changes nothing; in
   * particular overwrite(internalArray()) leaves the buffer as it is.
   */
  lemma OverwriteWithOwnBytes(buf: seq<byte>, off: nat, n: nat)
    requires off + n <= |buf|
    ensures AfterOverwrite(buf, Some(buf[off..off + n]), off) == Outcome(buf, None)
  {
  }

  /** Of two overwrites of the same range, the second wins; so overwrite is idempotent. */
  lemma OverwriteLastWins(buf: seq<byte>, a: seq<byte>, b: seq<byte>, off: int)
    requires |a| == |b|
    ensures Continue(AfterOverwrite(buf, Some(a), off), [Overwrite(Some(b), off)])
            == AfterOverwrite(buf, Some(b), off)
  {
    var first := AfterOverwrite(buf, Some(a), off);
    if first.thrown.None? {
      var twice := Overwritten(first.contents, b, off);
      var once := Overwritten(buf, b, off);
      forall i | 0 <= i < |buf| ensures twice[i] == once[i] {
        if off <= i < off + |b| {
          assert twice[off + (i - off)] == once[off + (i - off)];
        }
      }
      assert twice == once;
      var second := [Overwrite(Some(b), off)];
      assert second[0] == Overwrite(Some(b), off) && second[1..] == [];
      assert Step(first.contents, second[0]) == Outcome(twice, None);
      assert Run(twice, []) == Outcome(twice, None);
      assert Run(first.contents, second) == Outcome(twice, None);
    }
  }

  /** After secureWipe(random) nothing of the old contents is left: the result depends only on the length. */
  lemma SecureWipeForgets(b1: seq<byte>, b2: seq<byte>, s: ByteStream)
    requires |b1| == |b2|
    ensures AfterSecureWipe(b1, Some(s)) == AfterSecureWipe(b2, Some(s))
  {
  }
}

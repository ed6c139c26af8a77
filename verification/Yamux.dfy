/** The connection under a yamux session: it holds back the header of a data frame and writes it together
    with the body. */
module Yamux {
  type Byte = b: int | 0 <= b < 256

  const HEADER_SIZE := 12
  const TYPE_DATA := 0

  function Uint32(b: seq<Byte>): nat
    requires |b| == 4
  {
    (b[0] as int) * 0x100_0000 + (b[1] as int) * 0x1_0000 + (b[2] as int) * 0x100 + b[3] as int
  }

  /** The four bytes of a number, most significant first. */
  function Bytes32(n: nat): seq<Byte>
    requires n < 0x1_0000_0000
  {
    var n3 := n / 0x100;
    var n2 := n3 / 0x100;
    var n1 := n2 / 0x100;
    [n1, n2 % 0x100, n3 % 0x100, n % 0x100]
  }

  lemma LowByte(high: nat, low: Byte)
    ensures (high * 0x100 + low) / 0x100 == high && (high * 0x100 + low) % 0x100 == low
  {
  }

  lemma BytesOfUint32(b: seq<Byte>)
    requires |b| == 4
    ensures Uint32(b) < 0x1_0000_0000 && Bytes32(Uint32(b)) == b
  {
    var n2: int := b[0] as int * 0x100 + b[1];
    var n3: int := n2 * 0x100 + b[2];
    assert Uint32(b) == n3 * 0x100 + b[3];
    LowByte(b[0], b[1]);
    LowByte(n2, b[2]);
    LowByte(n3, b[3]);
  }

  /** Every number below 2^32 has exactly one encoding; that of 0 is four zero bytes. */
  lemma Uint32Unique(n: nat, b: seq<Byte>)
    requires n < 0x1_0000_0000 && |b| == 4
    ensures Uint32(b) == n <==> b == Bytes32(n)
    ensures Uint32(b) == 0 <==> b == [0, 0, 0, 0]
  {
    BytesOfUint32(b);
    var n3 := n / 0x100;
    var n2 := n3 / 0x100;
    assert n == (n2 / 0x100 * 0x1_0000 + n2 % 0x100 * 0x100 + n3 % 0x100) * 0x100 + n % 0x100;
  }

  /** Exactly the header of a data frame that has a body. */
  predicate IsDataHeader(b: seq<Byte>) {
    |b| == HEADER_SIZE && b[1] == TYPE_DATA && Uint32(b[8..12]) > 0
  }

  /** How the connection underneath answers a write: how many bytes it took, and whether it failed. A
      connection that takes less than it was given fails. */
  datatype Outcome = Outcome(n: nat, failed: bool)

  predicate Answers(o: Outcome, b: seq<Byte>) {
    o.n <= |b| && (o.n < |b| ==> o.failed)
  }

  /** `writes` holds what reached the connection underneath, one element a write. */
  datatype Link = Link(pending: seq<Byte>, writes: seq<seq<Byte>>)

  class Conn {
    var pending: seq<Byte>
    var buf: seq<Byte>
    var writes: seq<seq<Byte>>

    function State(): Link
      reads this
    {
      Link(pending, writes)
    }

    constructor ()
      ensures State() == Link([], [])
    {
      pending, buf, writes := [], [], [];
    }

    /** Returns how many bytes of `b` it reports as written, and whether it failed. */
    method Write(b: seq<Byte>, under: Outcome) returns (n: nat, failed: bool)
      requires Answers(under, Payload(State(), b))
      modifies this
      ensures State() == Written(old(State()), b, under)
      ensures failed == (!Held(old(State()), b) && under.failed)
      ensures !failed ==> n == |b|
      ensures failed && old(pending) != [] ==> n == 0
    {
      if |pending| == 0 {
        if IsDataHeader(b) {
          pending := pending + b;
          return |b|, false;
        }
        assert pending + b == b;
        writes := writes + [b[..under.n]];
        return under.n, under.failed;
      }
      buf := pending + b;
      pending := [];
      writes := writes + [buf[..under.n]];
      if under.failed {
        return 0, true;
      }
      return |b|, false;
    }
  }

  /** Nothing goes to the connection underneath. */
  predicate Held(l: Link, b: seq<Byte>) {
    l.pending == [] && IsDataHeader(b)
  }

  /** What goes to the connection underneath, if anything. */
  function Payload(l: Link, b: seq<Byte>): seq<Byte> {
    if Held(l, b) then [] else l.pending + b
  }

  function Written(l: Link, b: seq<Byte>, under: Outcome): Link
    requires Answers(under, Payload(l, b))
  {
    if Held(l, b) then l.(pending := b) else Link([], l.writes + [(l.pending + b)[..under.n]])
  }

  // ---------- The stream ----------

  function Concat(bs: seq<seq<Byte>>): seq<Byte>
    decreases |bs|
  {
    if bs == [] then [] else Concat(bs[..|bs| - 1]) + bs[|bs| - 1]
  }

  /** Everything written succeeds. */
  function WriteAll(l: Link, inputs: seq<seq<Byte>>): Link
    decreases |inputs|
  {
    if inputs == [] then l
    else
      WriteOne(WriteAll(l, inputs[..|inputs| - 1]), inputs[|inputs| - 1])
  }

  function WriteOne(l: Link, b: seq<Byte>): Link {
    Written(l, b, Outcome(|Payload(l, b)|, false))
  }

  /** What has been written, with what is held back. */
  function Stream(l: Link): seq<Byte> {
    Concat(l.writes) + l.pending
  }

  lemma ConcatOne(bs: seq<seq<Byte>>, b: seq<Byte>)
    ensures Concat(bs + [b]) == Concat(bs) + b
  {
    assert (bs + [b])[..|bs|] == bs;
  }

  /** A write that does not fail adds its bytes to the stream. */
  lemma WriteStreams(l: Link, b: seq<Byte>)
    ensures Stream(WriteOne(l, b)) == Stream(l) + b
  {
    if !Held(l, b) {
      var p := l.pending + b;
      assert p[..|p|] == p;
      ConcatOne(l.writes, p);
    }
  }

  /** Whatever is written, the bytes on the wire followed by the bytes held back are the bytes written. */
  lemma {:induction false} StreamPreserved(l: Link, inputs: seq<seq<Byte>>)
    ensures Stream(WriteAll(l, inputs)) == Stream(l) + Concat(inputs)
    ensures WriteAll(l, inputs).pending == [] || |WriteAll(l, inputs).pending| == HEADER_SIZE || inputs == []
    decreases |inputs|
  {
    if inputs != [] {
      var init, b := inputs[..|inputs| - 1], inputs[|inputs| - 1];
      StreamPreserved(l, init);
      WriteStreams(WriteAll(l, init), b);
    }
  }

  lemma PrefixOf(w: seq<Byte>, p: seq<Byte>, n: nat, total: seq<Byte>)
    requires w + p == total && n <= |p|
    ensures w + p[..n] <= total
  {
    assert p == p[..n] + p[n..];
    assert total == w + p[..n] + p[n..];
  }

  lemma WireWithin(l: Link, b: seq<Byte>, under: Outcome)
    requires Answers(under, Payload(l, b))
    ensures Concat(Written(l, b, under).writes) <= Stream(l) + b
  {
    var w, p := Concat(l.writes), l.pending + b;
    assert w + p == Stream(l) + b;
    if Held(l, b) {
      PrefixOf(w, p, 0, w + p);
    } else {
      PrefixOf(w, p, under.n, w + p);
      ConcatOne(l.writes, p[..under.n]);
    }
  }

  /** Up to and including the first write that fails, the wire carries a prefix of the bytes written. */
  lemma WireIsPrefix(l: Link, inputs: seq<seq<Byte>>, b: seq<Byte>, under: Outcome)
    requires Answers(under, Payload(WriteAll(l, inputs), b))
    ensures Concat(Written(WriteAll(l, inputs), b, under).writes) <= Stream(l) + Concat(inputs) + b
  {
    StreamPreserved(l, inputs);
    WireWithin(WriteAll(l, inputs), b, under);
  }

  // ---------- Frames ----------

  /** A data frame is followed by as many bytes as its length says; no other frame has a body. */
  datatype Frame = Frame(header: seq<Byte>, body: seq<Byte>)

  predicate WellFormed(f: Frame) {
    && |f.header| == HEADER_SIZE
    && |f.body| == if f.header[1] == TYPE_DATA then Uint32(f.header[8..12]) else 0
  }

  /** Yamux writes the header, then the body if there is one. */
  function FrameWrites(f: Frame): seq<seq<Byte>> {
    if f.body == [] then [f.header] else [f.header, f.body]
  }

  function AllWrites(fs: seq<Frame>): seq<seq<Byte>>
    decreases |fs|
  {
    if fs == [] then [] else AllWrites(fs[..|fs| - 1]) + FrameWrites(fs[|fs| - 1])
  }

  lemma WriteAllNext(l: Link, bs: seq<seq<Byte>>, b: seq<Byte>)
    ensures WriteAll(l, bs + [b]) == WriteOne(WriteAll(l, bs), b)
  {
    assert (bs + [b])[..|bs|] == bs;
  }

  /** With nothing held back, the header of a frame that has a body is held back, and any other is written. */
  lemma HeaderWritten(writes: seq<seq<Byte>>, f: Frame)
    requires WellFormed(f)
    ensures WriteOne(Link([], writes), f.header)
         == if f.body == [] then Link([], writes + [f.header + f.body]) else Link(f.header, writes)
  {
    if f.body == [] {
      assert !IsDataHeader(f.header);
      assert [] + f.header == f.header == f.header + f.body && f.header[..|f.header|] == f.header;
    }
  }

  /** Whatever follows a header that is held back goes with it, even another header. */
  lemma BodyWritten(writes: seq<seq<Byte>>, f: Frame)
    requires f.header != []
    ensures WriteOne(Link(f.header, writes), f.body) == Link([], writes + [f.header + f.body])
  {
    var p := f.header + f.body;
    assert p[..|p|] == p;
  }

  /** The frames, each as one run of bytes. */
  function Whole(fs: seq<Frame>): (r: seq<seq<Byte>>)
    ensures |r| == |fs| && forall i :: 0 <= i < |fs| ==> r[i] == fs[i].header + fs[i].body
    decreases |fs|
  {
    if fs == [] then [] else Whole(fs[..|fs| - 1]) + [fs[|fs| - 1].header + fs[|fs| - 1].body]
  }

  lemma OneMoreFrame(l: Link, inputs: seq<seq<Byte>>, writes: seq<seq<Byte>>, f: Frame)
    requires WellFormed(f) && WriteAll(l, inputs) == Link([], writes)
    ensures WriteAll(l, inputs + FrameWrites(f)) == Link([], writes + [f.header + f.body])
  {
    WriteAllNext(l, inputs, f.header);
    HeaderWritten(writes, f);
    if f.body != [] {
      WriteAllNext(l, inputs + [f.header], f.body);
      BodyWritten(writes, f);
      assert inputs + FrameWrites(f) == inputs + [f.header] + [f.body];
    }
  }

  lemma WholeNext(ws: seq<seq<Byte>>, fs: seq<Frame>)
    requires fs != []
    ensures var init, f := fs[..|fs| - 1], fs[|fs| - 1];
      ws + Whole(init) + [f.header + f.body] == ws + Whole(fs)
  {
  }

  /** Each frame of any sequence of frames becomes exactly one write, and nothing stays behind, even when a
      body is itself the header of a data frame. */
  lemma {:induction false} FramesBecomeWrites(l: Link, fs: seq<Frame>)
    requires l.pending == [] && forall i :: 0 <= i < |fs| ==> WellFormed(fs[i])
    ensures WriteAll(l, AllWrites(fs)) == Link([], l.writes + Whole(fs))
    decreases |fs|
  {
    if fs != [] {
      var init, f := fs[..|fs| - 1], fs[|fs| - 1];
      FramesBecomeWrites(l, init);
      OneMoreFrame(l, AllWrites(init), l.writes + Whole(init), f);
      WholeNext(l.writes, fs);
    }
  }
}

/** The two byte FIFOs of the library, driven by the same calls. */
module ByteFifo {
  import opened Bytes
  import M = MemoryBuffer
  import F = FlatReader

  datatype Op = Write(bytes: seq<byte>) | Read(n: nat)

  datatype Answer = Nothing | Null | Some(bytes: seq<byte>)

  /** The unread bytes after a call on a plain byte queue, and the answer of the call. */
  function Step(s: seq<byte>, op: Op): (seq<byte>, Answer) {
    match op
    case Write(b) => (s + b, Nothing)
    case Read(n) => if n > |s| then (s, Null) else (s[n..], Some(s[..n]))
  }

  function Run(s: seq<byte>, ops: seq<Op>): (seq<byte>, seq<Answer>)
    decreases ops
  {
    if ops == [] then (s, [])
    else
      var (t, a) := Step(s, ops[0]);
      var (u, as_) := Run(t, ops[1..]);
      (u, [a] + as_)
  }

  function Written(ops: seq<Op>): seq<byte> {
    if ops == [] then []
    else (if ops[0].Write? then ops[0].bytes else []) + Written(ops[1..])
  }

  function Delivered(answers: seq<Answer>): seq<byte> {
    if answers == [] then []
    else (if answers[0].Some? then answers[0].bytes else []) + Delivered(answers[1..])
  }

  /** First in, first out: what went in is what came out, followed by what is left. */
  lemma {:induction false} Conservation(s: seq<byte>, ops: seq<Op>)
    ensures var (rest, answers) := Run(s, ops);
            s + Written(ops) == Delivered(answers) + rest
    decreases ops
  {
    if ops != [] {
      var (t, a) := Step(s, ops[0]);
      Conservation(t, ops[1..]);
      var (rest, as_) := Run(t, ops[1..]);
      assert ([a] + as_)[1..] == as_;
      var w := if ops[0].Write? then ops[0].bytes else [];
      var d := if a.Some? then a.bytes else [];
      assert s + w == d + t;
      AppendAssociates(s, w, Written(ops[1..]));
      AppendAssociates(d, t, Written(ops[1..]));
      AppendAssociates(d, Delivered(as_), rest);
    }
  }

  lemma RunOne(s: seq<byte>, op: Op)
    ensures Run(s, [op]) == (Step(s, op).0, [Step(s, op).1])
  {
    var none: seq<Op> := [op][1..];
    var (t, a) := Step(s, op);
    assert none == [] && Run(t, none) == (t, []);
    assert [a] + [] == [a];
  }

  lemma {:induction false} RunAppend(s: seq<byte>, ops: seq<Op>, op: Op)
    ensures var (t, answers) := Run(s, ops);
            Run(s, ops + [op]) == (Step(t, op).0, answers + [Step(t, op).1])
    decreases ops
  {
    if ops == [] {
      assert ops + [op] == [op];
      RunOne(s, op);
      assert Run(s, ops) == (s, []);
      assert [] + [Step(s, op).1] == [Step(s, op).1];
    } else {
      var (t, a) := Step(s, ops[0]);
      RunAppend(t, ops[1..], op);
      assert (ops + [op])[1..] == ops[1..] + [op];
      var (u, as_) := Run(t, ops[1..]);
      assert [a] + (as_ + [Step(u, op).1]) == ([a] + as_) + [Step(u, op).1];
    }
  }

  /** The flat buffer never has to hold more than it can. */
  predicate Fits(s: seq<byte>, ops: seq<Op>)
    decreases ops
  {
    |s| <= F.BUFFER_SIZE && (ops == [] || Fits(Step(s, ops[0]).0, ops[1..]))
  }

  /** It never has to hold more than a megabyte. */
  lemma {:induction false} FitsMeans(s: seq<byte>, ops: seq<Op>)
    ensures Fits(s, ops) <==> forall i: nat :: i <= |ops| ==> |Run(s, ops[..i]).0| <= 1048576
    decreases ops
  {
    assert Run(s, ops[..0]).0 == s;
    if ops != [] {
      var t := Step(s, ops[0]).0;
      FitsMeans(t, ops[1..]);
      forall i: nat | i <= |ops| ensures i > 0 ==> Run(s, ops[..i]).0 == Run(t, ops[1..][..i - 1]).0 {
        assert i > 0 ==> ops[..i][0] == ops[0] && ops[..i][1..] == ops[1..][..i - 1];
      }
      forall i: nat | i < |ops| ensures Run(t, ops[1..][..i]).0 == Run(s, ops[..i + 1]).0 {
        assert ops[..i + 1][0] == ops[0] && ops[..i + 1][1..] == ops[1..][..i];
      }
    }
  }

  method CallChunked(c: M.MemoryBuffer, op: Op) returns (answer: Answer)
    requires c.Valid() && (op.Read? ==> op.n > 0)
    modifies c, c.repr
    ensures c.Valid() && (c.Contents(), answer) == Step(old(c.Contents()), op)
    ensures fresh(c.repr - old(c.repr))
  {
    match op
    case Write(bytes) =>
      var src := new byte[|bytes|](k requires 0 <= k < |bytes| => bytes[k]);
      assert src[..|bytes|] == bytes;
      c.Write(src, |bytes|);
      return Nothing;
    case Read(n) =>
      var result := c.Read(n);
      if result == null { return Null; }
      return Some(result[..]);
  }

  method CallFlat(f: F.PacketReader, op: Op) returns (answer: Answer)
    requires f.Valid() && |Step(f.Contents(), op).0| <= F.BUFFER_SIZE
    modifies f, f.buffer, f.data
    ensures f.Valid() && (f.Contents(), answer) == Step(old(f.Contents()), op)
  {
    match op
    case Write(bytes) =>
      var src := new byte[|bytes|](k requires 0 <= k < |bytes| => bytes[k]);
      assert src[..|bytes|] == bytes;
      f.Write(src, |bytes|);
      return Nothing;
    case Read(n) =>
      var result := f.Read(n);
      if result == null { return Null; }
      return Some(result[..n]);
  }

  method CallBoth(c: M.MemoryBuffer, f: F.PacketReader, op: Op) returns (a: Answer, b: Answer)
    requires c.Valid() && f.Valid() && c.Contents() == f.Contents()
    requires (op.Read? ==> op.n > 0) && |Step(f.Contents(), op).0| <= F.BUFFER_SIZE
    modifies c, c.repr, f, f.buffer, f.data
    ensures c.Valid() && f.Valid() && fresh(c.repr - old(c.repr))
    ensures (c.Contents(), a) == (f.Contents(), b) == Step(old(f.Contents()), op)
  {
    a := CallChunked(c, op);
    b := CallFlat(f, op);
  }

  /** On every sequence of writes and non-empty reads that fits the flat buffer, the queue of
      chunks and the flat array give the same answers: those of a plain byte queue. */
  method Compare(ops: seq<Op>) returns (chunked: seq<Answer>, flat: seq<Answer>)
    requires (forall i :: 0 <= i < |ops| ==> ops[i].Read? ==> ops[i].n > 0) && Fits([], ops)
    ensures chunked == flat == Run([], ops).1
  {
    var c := new M.MemoryBuffer();
    var f := new F.PacketReader();
    chunked, flat := [], [];
    ghost var s: seq<byte> := [];
    for i := 0 to |ops|
      invariant fresh(c) && fresh(c.repr) && c.Valid() && c.Contents() == s
      invariant fresh(f) && fresh(f.buffer) && fresh(f.data) && f.Valid() && f.Contents() == s
      invariant Run([], ops[..i]) == (s, chunked) == (s, flat) && Fits(s, ops[i..])
    {
      NextStep(s, ops, i);
      var a, b := CallBoth(c, f, ops[i]);
      s := Step(s, ops[i]).0;
      chunked, flat := chunked + [a], flat + [b];
    }
    assert ops[..|ops|] == ops;
  }

  lemma NextStep(s: seq<byte>, ops: seq<Op>, i: nat)
    requires i < |ops| && Run([], ops[..i]).0 == s && Fits(s, ops[i..])
    ensures var (t, a) := Step(s, ops[i]);
            && Run([], ops[..i + 1]) == (t, Run([], ops[..i]).1 + [a])
            && |t| <= F.BUFFER_SIZE && Fits(t, ops[i + 1..])
  {
    RunAppend([], ops[..i], ops[i]);
    assert ops[..i + 1] == ops[..i] + [ops[i]] && ops[i..][1..] == ops[i + 1..];
  }

  /** The one difference: after a read of zero bytes the flat buffer is as before, while the queue
      of chunks is empty with its size unchanged. */
  method ReadNothing(bytes: seq<byte>) returns (chunkedLeft: nat, chunkedSize: nat, flatLeft: nat)
    requires |bytes| <= F.BUFFER_SIZE
    ensures chunkedLeft == 0 && chunkedSize == |bytes| == flatLeft
  {
    var c := new M.MemoryBuffer();
    var f := new F.PacketReader();
    var src := new byte[|bytes|](k requires 0 <= k < |bytes| => bytes[k]);
    c.Write(src, |bytes|);
    f.Write(src, |bytes|);
    var r := c.Read(0);
    var s := f.Read(0);
    chunkedLeft, chunkedSize, flatLeft := |c.queue|, c.size, f.size;
  }
}

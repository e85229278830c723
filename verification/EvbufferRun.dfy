/** Runs of buffer operations refine runs over a plain byte sequence. */
module EvbufferRun {
  import opened Bytes
  import opened Pieces
  import opened Evbuffer
  import opened EvbufferPullup

  datatype Op =
    | AddOp(data: seq<Byte>)
    | PrependOp(data: seq<Byte>)
    | DrainOp(n: nat)
    | RemoveOp(n: nat)
    | CopyoutOp(n: nat)
    | PullupOp(size: int)

  function Min(a: nat, b: nat): nat {
    if a <= b then a else b
  }

  /** What the operation does to a byte queue. */
  function After(b: seq<Byte>, op: Op): seq<Byte> {
    match op
    case AddOp(data) => b + data
    case PrependOp(data) => data + b
    case DrainOp(n) => b[Min(n, |b|)..]
    case RemoveOp(n) => b[Min(n, |b|)..]
    case CopyoutOp(_) => b
    case PullupOp(_) => b
  }

  /** The bytes it hands out. */
  function Output(b: seq<Byte>, op: Op): seq<Byte> {
    match op
    case RemoveOp(n) => b[..Min(n, |b|)]
    case CopyoutOp(n) => b[..Min(n, |b|)]
    case _ => []
  }

  /** The queue after a run, and all bytes handed out. */
  function RunOf(b: seq<Byte>, ops: seq<Op>): (seq<Byte>, seq<Byte>)
    decreases |ops|
  {
    if ops == [] then (b, [])
    else var (b', out) := RunOf(After(b, ops[0]), ops[1..]);
         (b', Output(b, ops[0]) + out)
  }

  /** One operation on a buffer that is not frozen and owns all its memory. */
  method Step(buf: EvBuffer, op: Op) returns (out: seq<Byte>)
    requires buf.Valid() && !buf.freezeStart && !buf.freezeEnd
    modifies buf, buf.chains, set c | c in buf.chains :: c.buffer
    ensures buf.Valid() && !buf.freezeStart && !buf.freezeEnd
    ensures buf.Contents() == After(old(buf.Contents()), op)
    ensures out == Output(old(buf.Contents()), op)
    ensures forall i :: 0 <= i < |buf.chains| ==>
                buf.chains[i] in old(buf.chains) || (fresh(buf.chains[i]) && fresh(buf.chains[i].buffer))
  {
    hide Flatten, Separate, Held, Linked, Packed, Chain.Holds;
    out := [];
    ghost var b := buf.Contents();
    LastAndFirst(buf);
    match op {
      case AddOp(data) =>
        var r := buf.Add(data);
      case PrependOp(data) =>
        var r := buf.Prepend(data);
      case DrainOp(n) =>
        var r := buf.Drain(n);
      case RemoveOp(n) =>
        var r;
        r, out := buf.Remove(n);
        assert out == b[..|out|] && buf.Contents() == b[|out|..];
      case CopyoutOp(n) =>
        var r;
        r, out := buf.Copyout(n);
      case PullupOp(size) =>
        var ok := Pullup(buf, size);
    }
  }

  lemma LastAndFirst(buf: EvBuffer)
    requires buf.Valid()
    ensures buf.last != null ==> exists i :: 0 <= i < |buf.chains| && buf.chains[i] == buf.last
    ensures buf.first != null ==> exists i :: 0 <= i < |buf.chains| && buf.chains[i] == buf.first
  {
    if buf.last != null { assert buf.chains[|buf.chains| - 1] == buf.last; }
    if buf.first != null { assert buf.chains[0] == buf.first; }
  }

  /** Every run from an empty buffer leaves the bytes, and hands out the bytes, that the plain queue does. */
  method Run(ops: seq<Op>) returns (buf: EvBuffer, out: seq<Byte>)
    ensures fresh(buf) && buf.Valid()
    ensures (buf.Contents(), out) == RunOf([], ops)
  {
    hide Flatten, Separate, Held, Linked, Packed, Chain.Holds;
    buf := new EvBuffer();
    out := [];
    var i := 0;
    ghost var whole := RunOf([], ops);
    assert ops[0..] == ops;
    assert [] + whole.1 == whole.1;
    while i < |ops|
      invariant 0 <= i <= |ops|
      invariant fresh(buf) && buf.Valid() && !buf.freezeStart && !buf.freezeEnd
      invariant forall k :: 0 <= k < |buf.chains| ==> fresh(buf.chains[k]) && fresh(buf.chains[k].buffer)
      invariant whole == (RunOf(buf.Contents(), ops[i..]).0, out + RunOf(buf.Contents(), ops[i..]).1)
    {
      RunStep(buf.Contents(), ops, i, out);
      hide RunOf, Output, After;
      var more := Step(buf, ops[i]);
      out := out + more;
      i := i + 1;
    }
    assert ops[i..] == [];
    assert out + [] == out;
  }

  lemma RunStep(b: seq<Byte>, ops: seq<Op>, i: nat, out: seq<Byte>)
    requires i < |ops|
    ensures var rest := RunOf(After(b, ops[i]), ops[i + 1..]);
            RunOf(b, ops[i..]).0 == rest.0 && out + RunOf(b, ops[i..]).1 == out + Output(b, ops[i]) + rest.1
  {
    hide After, Output;
    assert ops[i..][0] == ops[i] && ops[i..][1..] == ops[i + 1..];
    var more, rest := Output(b, ops[i]), RunOf(After(b, ops[i]), ops[i + 1..]).1;
    assert out + (more + rest) == out + more + rest;
  }

  function Added(ops: seq<Op>): seq<Byte> {
    if ops == [] then [] else (if ops[0].AddOp? then ops[0].data else []) + Added(ops[1..])
  }

  /** What one operation takes from the front, handed out or dropped. */
  function Taken(b: seq<Byte>, op: Op): (r: seq<Byte>)
    ensures r <= b
  {
    if op.RemoveOp? || op.DrainOp? then b[..Min(op.n, |b|)] else []
  }

  /** What a run takes from the front, in order. */
  function TakenOf(b: seq<Byte>, ops: seq<Op>): (r: seq<Byte>)
    decreases |ops|
  {
    if ops == [] then [] else Taken(b, ops[0]) + TakenOf(After(b, ops[0]), ops[1..])
  }

  /** Nothing is lost, doubled or reordered in any run without prepends: what is handed out or dropped at the front,
      followed by what is left, is what went in at the back; without drains and copies it is all handed out. */
  lemma {:induction false} Conserved(b: seq<Byte>, ops: seq<Op>)
    requires forall op :: op in ops ==> !op.PrependOp?
    ensures TakenOf(b, ops) + RunOf(b, ops).0 == b + Added(ops)
    ensures (forall op :: op in ops ==> !op.DrainOp? && !op.CopyoutOp?) ==> TakenOf(b, ops) == RunOf(b, ops).1
    decreases |ops|
  {
    if ops != [] {
      var op, tail := ops[0], ops[1..];
      Conserved(After(b, op), tail);
      OneConserved(b, op);
      hide RunOf, After, Output, Added, Taken, TakenOf;
      RunUnfold(b, ops);
      AddedUnfold(ops);
      TakenUnfold(b, ops);
      var rest := RunOf(After(b, op), tail);
      var data := if op.AddOp? then op.data else [];
      Regroup(Taken(b, op), TakenOf(After(b, op), tail), rest.0, After(b, op), Added(tail), b, data);
    }
  }

  lemma TakenUnfold(b: seq<Byte>, ops: seq<Op>)
    requires ops != []
    ensures TakenOf(b, ops) == Taken(b, ops[0]) + TakenOf(After(b, ops[0]), ops[1..])
  {
    hide After, Taken;
  }

  lemma RunUnfold(b: seq<Byte>, ops: seq<Op>)
    requires ops != []
    ensures var rest := RunOf(After(b, ops[0]), ops[1..]);
            RunOf(b, ops) == (rest.0, Output(b, ops[0]) + rest.1)
  {
    hide After, Output;
  }

  lemma AddedUnfold(ops: seq<Op>)
    requires ops != []
    ensures Added(ops) == (if ops[0].AddOp? then ops[0].data else []) + Added(ops[1..])
  {
  }

  lemma OneConserved(b: seq<Byte>, op: Op)
    requires !op.PrependOp?
    ensures Taken(b, op) + After(b, op) == b + if op.AddOp? then op.data else []
    ensures !op.DrainOp? && !op.CopyoutOp? ==> Taken(b, op) == Output(b, op)
  {
  }

  lemma Regroup(out: seq<Byte>, out': seq<Byte>, left: seq<Byte>, after: seq<Byte>, added: seq<Byte>, b: seq<Byte>,
                data: seq<Byte>)
    requires out' + left == after + added && out + after == b + data
    ensures out + out' + left == b + (data + added)
  {
    assert out + out' + left == out + (out' + left);
    assert out + (after + added) == out + after + added;
    assert b + data + added == b + (data + added);
  }
}

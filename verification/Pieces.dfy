/** Byte queues cut into pieces: the value a list of evbuffer chains stands for. */
module Pieces {

  import opened Bytes

  /** All the bytes, in order. */
  ghost function Flatten(pieces: seq<seq<Byte>>): seq<Byte> {
    if pieces == [] then [] else pieces[0] + Flatten(pieces[1..])
  }

  /** No piece is empty, unless it is the only one. */
  ghost predicate Packed(pieces: seq<seq<Byte>>) {
    |pieces| > 1 ==> forall p :: p in pieces ==> p != []
  }

  lemma FlattenCons(a: seq<seq<Byte>>)
    requires a != []
    ensures Flatten(a) == a[0] + Flatten(a[1..])
  {
  }

  lemma {:induction false} FlattenConcat(a: seq<seq<Byte>>, b: seq<seq<Byte>>)
    ensures Flatten(a + b) == Flatten(a) + Flatten(b)
  {
    if a == [] {
      assert a + b == b;
    } else {
      FlattenConcat(a[1..], b);
      assert (a + b)[1..] == a[1..] + b && (a + b)[0] == a[0];
      FlattenCons(a);
      FlattenCons(a + b);
      hide Flatten;
      assert a[0] + (Flatten(a[1..]) + Flatten(b)) == a[0] + Flatten(a[1..]) + Flatten(b);
    }
  }

  lemma FlattenOne(p: seq<Byte>)
    ensures Flatten([p]) == p
  {
    assert [p][1..] == [];
  }

  lemma FlattenNone()
    ensures Flatten([]) == []
  {
  }

  /** The pieces around piece `k`. */
  lemma FlattenAt(pieces: seq<seq<Byte>>, k: nat)
    requires k < |pieces|
    ensures Flatten(pieces) == Flatten(pieces[..k]) + pieces[k] + Flatten(pieces[k + 1..])
    ensures Flatten(pieces[..k + 1]) == Flatten(pieces[..k]) + pieces[k]
    ensures Flatten(pieces[k..]) == pieces[k] + Flatten(pieces[k + 1..])
    ensures Flatten(pieces) == Flatten(pieces[..k]) + Flatten(pieces[k..])
  {
    hide Flatten;
    FlattenSplit(pieces, k);
    FlattenHead(pieces, k);
    CutAt(pieces, k);
    FlattenConcat(pieces[..k], [pieces[k]]);
    FlattenOne(pieces[k]);
  }

  lemma CutAt(pieces: seq<seq<Byte>>, k: nat)
    requires k < |pieces|
    ensures pieces[..k + 1] == pieces[..k] + [pieces[k]]
  {
  }

  lemma FlattenHead(pieces: seq<seq<Byte>>, k: nat)
    requires k < |pieces|
    ensures Flatten(pieces[k..]) == pieces[k] + Flatten(pieces[k + 1..])
  {
    assert pieces[k..][0] == pieces[k] && pieces[k..][1..] == pieces[k + 1..];
  }

  lemma FlattenSplit(pieces: seq<seq<Byte>>, k: nat)
    requires k <= |pieces|
    ensures Flatten(pieces) == Flatten(pieces[..k]) + Flatten(pieces[k..])
  {
    assert pieces == pieces[..k] + pieces[k..];
    FlattenConcat(pieces[..k], pieces[k..]);
  }

  /** Growing the last piece appends. */
  lemma FlattenGrowLast(pieces: seq<seq<Byte>>, data: seq<Byte>)
    requires pieces != []
    ensures Flatten(pieces[|pieces| - 1 := pieces[|pieces| - 1] + data]) == Flatten(pieces) + data
  {
    var n := |pieces| - 1;
    var after := pieces[n := pieces[n] + data];
    FlattenAt(pieces, n);
    FlattenAt(after, n);
    assert after[..n] == pieces[..n];
    FlattenNone();
    hide Flatten;
    assert pieces[n + 1..] == [] && after[n + 1..] == [];
  }

  /** Changing the first piece. */
  lemma FlattenFirst(pieces: seq<seq<Byte>>, p: seq<Byte>)
    requires pieces != []
    ensures Flatten(pieces[0 := p]) == p + Flatten(pieces[1..])
    ensures Flatten(pieces) == pieces[0] + Flatten(pieces[1..])
    ensures Flatten([p] + pieces) == p + Flatten(pieces)
  {
    assert pieces[0 := p][1..] == pieces[1..];
    assert ([p] + pieces)[1..] == pieces;
  }

  lemma FlattenPush(pieces: seq<seq<Byte>>, p: seq<Byte>)
    ensures Flatten(pieces + [p]) == Flatten(pieces) + p
  {
    FlattenConcat(pieces, [p]);
    FlattenOne(p);
  }

  lemma {:induction false} PackedEmpty(pieces: seq<seq<Byte>>)
    requires Packed(pieces)
    ensures Flatten(pieces) == [] <==> pieces == [] || pieces == [[]]
  {
    if pieces != [] {
      FlattenFirst(pieces, []);
      FlattenNone();
      if |pieces| > 1 { assert pieces[0] in pieces; }
    }
  }
}

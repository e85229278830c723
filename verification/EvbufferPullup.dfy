/** `evbuffer_pullup`: make the first bytes of an evbuffer contiguous. */
module EvbufferPullup {
  import opened Bytes
  import opened Pieces
  import opened Evbuffer
  import opened EvbufferMove

  lemma HeldRest(s: seq<Chain>, p: seq<seq<Byte>>)
    requires s != [] && Held(s, p)
    ensures Held(s[1..], p[1..])
  {
  }

  lemma HeldTail(s: seq<Chain>, p: seq<seq<Byte>>, k: nat)
    requires |s| == |p| && k < |s| && Held(s[k..], p[k..])
    ensures s[k].Holds(p[k]) && s[k].off == |p[k]| && Held(s[k + 1..], p[k + 1..])
  {
    assert s[k..][0] == s[k] && p[k..][0] == p[k];
    HeldRest(s[k..], p[k..]);
    assert s[k..][1..] == s[k + 1..] && p[k..][1..] == p[k + 1..];
  }

  lemma ApartTail(c: Chain, s: seq<Chain>, k0: nat, k: nat)
    requires k0 <= k <= |s| && Apart(c, s[k0..])
    ensures Apart(c, s[k..])
    ensures forall d :: d in s[k..] ==> d != c && d.buffer != c.buffer
  {
    forall i | k <= i < |s| ensures s[i] != c && s[i].buffer != c.buffer {
      assert s[k0..][i - k0] == s[i];
    }
  }

  /** `memcpy` into a chain that is no part of the list `others`. */
  method PutBeside(c: Chain, data: seq<Byte>, ghost p: seq<Byte>, ghost others: seq<Chain>,
                   ghost pieces: seq<seq<Byte>>)
    requires c.Holds(p) && c.misalign + c.off + |data| <= c.buffer.Length
    requires Apart(c, others) && Held(others, pieces)
    modifies c`off, c.buffer
    ensures c.Holds(p + data) && Held(others, pieces)
  {
    c.Put(data, p);
  }

  /** One step of the walk: what lies before, what is still wanted. */
  lemma PullStep(s: seq<Chain>, p: seq<seq<Byte>>, k: nat, want: nat, size: nat)
    requires Linked(s) && Separate(s) && |s| == |p| >= 2 && k < |s|
    requires |Flatten(p[..k])| + size == want <= |Flatten(p)|
    ensures Flatten(p[..k + 1]) == Flatten(p[..k]) + p[k]
    ensures s[k].next == if k + 1 < |s| then s[k + 1] else null
    ensures s[k] == s[|s| - 1] <==> k == |s| - 1
    ensures s[k] == s[|s| - 2] <==> k == |s| - 2
  {
    hide Separate, Flatten;
    FlattenAt(p, k);
    Different(s, k, |s| - 1);
    Different(s, k, |s| - 2);
  }

  lemma PullEnd(p: seq<seq<Byte>>, k: nat, want: nat, size: nat)
    requires k <= |p| && |Flatten(p[..k])| + size == want <= |Flatten(p)| && p != []
    ensures k == |p| ==> size == 0 && Flatten(p[..k]) == Flatten(p)
    ensures k == 0 ==> size == want
  {
    if k == |p| { assert p[..k] == p; }
    FirstBytes(p, 0);
  }

  /** The copying loop: the chains from `k0` on go into `tmp`, which holds what came before them, as long as they are
      wanted as a whole. `chain` is the first that stays (null if none does) and `size` bytes of it are still
      wanted. */
  method PullLoop(buf: EvBuffer, tmp: Chain, from: Chain?, want: nat, ghost k0: nat)
    returns (chain: Chain?, size: nat, removedLast: bool, removedPrev: bool, ghost k: nat)
    requires Separate(buf.chains) && Linked(buf.chains) && Held(buf.chains, buf.pieces) && Packed(buf.pieces)
    requires |buf.chains| == |buf.pieces| >= 2 && buf.lastWithDataPrev == buf.chains[|buf.chains| - 2]
    requires k0 <= 1 && from == buf.chains[k0] && tmp.Holds(Flatten(buf.pieces[..k0]))
    requires |Flatten(buf.pieces[..k0])| <= want <= |Flatten(buf.pieces)| && tmp.misalign + want <= tmp.buffer.Length
    requires Apart(tmp, buf.chains[k0..])
    modifies tmp`off, tmp.buffer
    ensures k0 <= k <= |buf.chains| && chain == if k < |buf.chains| then buf.chains[k] else null
    ensures |Flatten(buf.pieces[..k])| + size == want && tmp.Holds(Flatten(buf.pieces[..k]))
    ensures k < |buf.chains| ==> size < |buf.pieces[k]|
    ensures Separate(buf.chains) && Linked(buf.chains)
    ensures removedLast <==> k == |buf.chains|
    ensures removedPrev <==> k0 <= |buf.chains| - 2 < k
    ensures Held(buf.chains[k..], buf.pieces[k..])
  {
    hide Flatten, Separate, Held, Linked, Packed, Chain.Holds, Apart;
    ghost var s, p := buf.chains, buf.pieces;
    LastLink(s);
    HoldsLength(tmp, Flatten(p[..k0]));
    Suffix(s, p, k0);
    var lastWithData := buf.LastWithData();
    removedLast, removedPrev := false, false;
    k := k0;
    chain := from;
    size := want - tmp.off;
    HeldTail(s, p, k);
    while chain != null && size >= chain.off
      invariant k0 <= k <= |s| && chain == if k < |s| then s[k] else null
      invariant |Flatten(p[..k])| + size == want && tmp.Holds(Flatten(p[..k])) && tmp.misalign == old(tmp.misalign)
      invariant removedLast <==> k == |s|
      invariant removedPrev <==> k0 <= |s| - 2 < k
      invariant Separate(s) && Linked(s) && Held(s[k..], p[k..])
      decreases |s| - k
    {
      HeldTail(s, p, k);
      ApartTail(tmp, s, k0, k + 1);
      PullStep(s, p, k, want, size);
      HoldsLength(tmp, Flatten(p[..k]));
      var next := chain.next;
      var data := chain.Get(chain.off, p[k]);
      assert data == p[k];
      size := size - chain.off;
      if chain == lastWithData { removedLast := true; }
      if chain == buf.lastWithDataPrev { removedPrev := true; }
      PutBeside(tmp, data, Flatten(p[..k]), s[k + 1..], p[k + 1..]);
      chain := next;
      k := k + 1;
    }
    if k < |s| { HeldTail(s, p, k); }
  }

  /** The pieces after pulling up everything before piece `k` and `m` bytes of it. */
  ghost function Pulled(p: seq<seq<Byte>>, k: nat, m: nat): seq<seq<Byte>>
    requires k < |p| && m <= |p[k]|
  {
    [Flatten(p[..k]) + p[k][..m], p[k][m..]] + p[k + 1..]
  }

  lemma PulledSame(p: seq<seq<Byte>>, k: nat, m: nat)
    requires Packed(p) && 0 < k < |p| && m < |p[k]|
    ensures Flatten(Pulled(p, k, m)) == Flatten(p)
    ensures Packed(Pulled(p, k, m))
  {
    hide Packed, Flatten;
    PulledFlatten(p, k, m);
    PackedPrefix(p, k);
    FlattenFirst(p[..k], []);
    assert p[..k][0] in p[..k];
    PulledPacked(p, k, m);
  }

  lemma PulledFlatten(p: seq<seq<Byte>>, k: nat, m: nat)
    requires k < |p| && m < |p[k]|
    ensures Flatten(Pulled(p, k, m)) == Flatten(p)
  {
    hide Flatten;
    var front, back, tail := p[k][..m], p[k][m..], p[k + 1..];
    FlattenAt(p, k);
    FlattenConcat([Flatten(p[..k]) + front, back], tail);
    FlattenConcat([Flatten(p[..k]) + front], [back]);
    FlattenOne(Flatten(p[..k]) + front);
    FlattenOne(back);
    assert [Flatten(p[..k]) + front] + [back] == [Flatten(p[..k]) + front, back];
    assert p[k] == front + back;
  }

  lemma PulledPacked(p: seq<seq<Byte>>, k: nat, m: nat)
    requires Packed(p) && 0 < k < |p| && m < |p[k]| && Flatten(p[..k]) != []
    ensures Packed(Pulled(p, k, m))
  {
    hide Flatten;
    var q := Pulled(p, k, m);
    forall x | x in q ensures x != [] {
      var i :| 0 <= i < |q| && q[i] == x;
      if i >= 2 { assert q[i] == p[k + i - 1] && p[k + i - 1] in p; }
    }
  }

  /** The bytes wanted from the chain that stays. */
  method PullPart(tmp: Chain, chain: Chain, size: nat, ghost s: seq<Chain>, ghost p: seq<seq<Byte>>, ghost k: nat)
    requires |s| == |p| && k < |s| && chain == s[k] && size < |p[k]| && Separate(s)
    requires Held(s[k..], p[k..]) && tmp.Holds(Flatten(p[..k])) && Apart(tmp, s[k..])
    requires tmp.misalign + |Flatten(p[..k])| + size <= tmp.buffer.Length
    modifies tmp`off, tmp.buffer, chain`off, chain`misalign
    ensures Held([tmp] + s[k..], Pulled(p, k, size))
  {
    hide Flatten, Separate, Held, Chain.Holds, Apart;
    HeldTail(s, p, k);
    ApartTail(tmp, s, k, k);
    ApartTail(tmp, s, k, k + 1);
    assert chain in s[k..] by { assert s[k..][0] == s[k]; }
    Halves(s, k);
    SeparateAt(s, k);
    ApartNotIn(chain, s[k + 1..]);
    HoldsLength(tmp, Flatten(p[..k]));
    var data := chain.Get(size, p[k]);
    tmp.Put(data, Flatten(p[..k]));
    chain.Skip(size, p[k]);
    HeldFront(s[k + 1..], p[k + 1..], chain, p[k][size..]);
    HeldFront([chain] + s[k + 1..], [p[k][size..]] + p[k + 1..], tmp, Flatten(p[..k]) + data);
    assert [chain] + s[k + 1..] == s[k..];
    assert [Flatten(p[..k]) + data] + ([p[k][size..]] + p[k + 1..]) == Pulled(p, k, size);
  }

  /** The end of `evbuffer_pullup` when a chain stays: `tmp` leads to it, and `last_with_datap` is repaired if the
      chain it points into was removed. */
  method PullRelink(buf: EvBuffer, tmp: Chain, chain: Chain, removedPrev: bool, size: nat, ghost k0: nat, ghost k: nat)
    requires var s, p := buf.chains, buf.pieces;
             && |s| == |p| >= 2 && 0 < k < |s| && k0 <= 1 && size < |p[k]|
             && chain == s[k] && buf.first == tmp && buf.last == s[|s| - 1] && buf.lastWithDataPrev == s[|s| - 2]
             && Separate(s) && Linked(s) && Packed(p) && buf.totalLen == |Flatten(p)|
             && Held([tmp] + s[k..], Pulled(p, k, size)) && Apart(tmp, s[k..])
             && (k0 == 1 ==> tmp == s[0])
             && (removedPrev <==> k0 <= |s| - 2 < k)
    modifies buf, tmp`next
    ensures buf.Valid() && buf.Contents() == old(buf.Contents())
    ensures buf.pieces == Pulled(old(buf.pieces), k, size) && buf.chains == [tmp] + old(buf.chains)[k..]
    ensures buf.freezeStart == old(buf.freezeStart) && buf.freezeEnd == old(buf.freezeEnd)
  {
    hide Flatten, Separate, Held, Chain.Holds, Apart, Packed, Pulled, Linked;
    ghost var s, p := buf.chains, buf.pieces;
    ghost var rest := s[k..];
    ghost var list, pieces := [tmp] + rest, Pulled(p, k, size);
    PulledSame(p, k, size);
    Halves(s, k);
    SeparateFront(rest, tmp);
    SeparateOne(tmp);
    LinkedPrefix(s, k);
    SecondOff(list, p, k, size);
    ListEnds(s, tmp, k);
    tmp.next := null;
    ApartNotIn(tmp, rest);
    LinkedOne(tmp);
    LinkLast([tmp], tmp, chain, rest);
    if removedPrev {
      assert chain == list[1];
      if tmp.next != null && tmp.next.off != 0 {
        buf.lastWithDataPrev := buf.first;
      } else {
        // the code falls back to the first chain, but the next one has data
        assert false;
      }
    }
    buf.chains, buf.pieces := list, pieces;
  }

  lemma ListEnds(s: seq<Chain>, tmp: Chain, k: nat)
    requires |s| >= 2 && 0 < k < |s|
    ensures var list := [tmp] + s[k..];
            && |list| == |s| - k + 1 && list[0] == tmp && list[1] == s[k] && list[|list| - 1] == s[|s| - 1]
            && list[|list| - 2] == if k == |s| - 1 then tmp else s[|s| - 2]
  {
  }

  lemma SecondOff(list: seq<Chain>, p: seq<seq<Byte>>, k: nat, size: nat)
    requires k < |p| && size < |p[k]| && |list| >= 2 && Held(list, Pulled(p, k, size))
    ensures list[1].off != 0
  {
    hide Flatten;
    HeldAt(list, Pulled(p, k, size), 1);
  }

  /** The end of `evbuffer_pullup` when every chain was taken in. */
  method PullAll(buf: EvBuffer, tmp: Chain)
    requires buf.first == tmp && tmp.Holds(Flatten(buf.pieces)) && buf.totalLen == |Flatten(buf.pieces)|
    modifies buf, tmp`next
    ensures buf.Valid() && buf.Contents() == old(buf.Contents()) && buf.pieces == [old(buf.Contents())]
            && buf.chains == [tmp]
    ensures buf.freezeStart == old(buf.freezeStart) && buf.freezeEnd == old(buf.freezeEnd)
  {
    FlattenOne(Flatten(buf.pieces));
    hide Flatten;
    buf.last := tmp;
    tmp.next := null;
    buf.lastWithDataPrev := null;
    buf.chains, buf.pieces := [tmp], [Flatten(buf.pieces)];
  }

  /** `evbuffer_pullup`: the bytes stay, and the first `size` of them (all, if it is negative) lie in the first chain.
      It refuses to pull up nothing, or more than there is. */
  method Pullup(buf: EvBuffer, size: int) returns (ok: bool)
    requires buf.Valid()
    modifies buf, buf.chains, set c | c in buf.chains :: c.buffer
    ensures buf.Valid() && buf.Contents() == old(buf.Contents())
    ensures ok <==> 0 < (if size < 0 then |buf.Contents()| else size) <= |buf.Contents()|
    ensures ok ==> buf.pieces != [] && |buf.pieces[0]| >= if size < 0 then |buf.Contents()| else size
    ensures buf.freezeStart == old(buf.freezeStart) && buf.freezeEnd == old(buf.freezeEnd)
    ensures forall c :: c in buf.chains ==> c in old(buf.chains) || (fresh(c) && fresh(c.buffer))
  {
    hide Flatten, Separate, Held, Chain.Holds, Apart, Packed, Pulled, Linked;
    var want := if size < 0 then buf.totalLen else size;
    if want == 0 || want > buf.totalLen { return false; }
    buf.LastInBounds();
    FlattenNone();
    HeldAt(buf.chains, buf.pieces, 0);
    if buf.first.off >= want { return true; }
    Gather(buf, want);
    return true;
  }

  /** More than the first chain is wanted. */
  method Gather(buf: EvBuffer, want: nat)
    requires buf.Valid() && buf.first != null && buf.first.off < want <= buf.totalLen
    modifies buf, buf.chains, set c | c in buf.chains :: c.buffer
    ensures buf.Valid() && buf.Contents() == old(buf.Contents())
    ensures buf.pieces != [] && |buf.pieces[0]| >= want
    ensures buf.freezeStart == old(buf.freezeStart) && buf.freezeEnd == old(buf.freezeEnd)
    ensures forall c :: c in buf.chains ==> c in old(buf.chains) || (fresh(c) && fresh(c.buffer))
  {
    hide Flatten, Separate, Held, Chain.Holds, Apart, Packed, Pulled, Linked;
    ghost var s, p := buf.chains, buf.pieces;
    TwoChains(buf, want);
    if buf.first.buffer.Length - buf.first.misalign >= want {
      // enough space in the first chain
      GatherInto(buf, buf.first, buf.first.next, want, 1);
    } else {
      var tmp := NewChain(want, []);
      var from := buf.first;
      buf.first := tmp;
      AllApart(tmp, s);
      GatherInto(buf, tmp, from, want, 0);
    }
  }

  lemma AllApart(c: Chain, s: seq<Chain>)
    requires c !in s && forall d :: d in s ==> d.buffer != c.buffer
    ensures Apart(c, s[0..]) && s[0..] == s
  {
  }

  /** Copy, unlink and repair, with `tmp` already first. */
  method GatherInto(buf: EvBuffer, tmp: Chain, from: Chain?, want: nat, ghost k0: nat)
    requires Separate(buf.chains) && Linked(buf.chains) && Held(buf.chains, buf.pieces) && Packed(buf.pieces)
    requires |buf.chains| == |buf.pieces| >= 2 && buf.lastWithDataPrev == buf.chains[|buf.chains| - 2]
    requires buf.first == tmp && buf.last == buf.chains[|buf.chains| - 1] && buf.totalLen == |Flatten(buf.pieces)|
    requires k0 <= 1 && from == buf.chains[k0] && tmp.Holds(Flatten(buf.pieces[..k0]))
             && (k0 == 1 ==> tmp == buf.chains[0])
    requires |buf.pieces[0]| < want <= |Flatten(buf.pieces)| && tmp.misalign + want <= tmp.buffer.Length
    requires Apart(tmp, buf.chains[k0..])
    modifies buf, tmp, tmp.buffer, buf.chains`off, buf.chains`misalign
    ensures buf.Valid() && buf.Contents() == old(buf.Contents())
    ensures buf.pieces != [] && |buf.pieces[0]| >= want
    ensures buf.freezeStart == old(buf.freezeStart) && buf.freezeEnd == old(buf.freezeEnd)
    ensures forall c :: c in buf.chains ==> c in old(buf.chains) || c == tmp
  {
    hide Flatten, Separate, Held, Chain.Holds, Apart, Packed, Linked;
    ghost var s, p := buf.chains, buf.pieces;
    FirstBytes(p, k0);
    var chain, size, removedLast, removedPrev;
    ghost var k;
    chain, size, removedLast, removedPrev, k := PullLoop(buf, tmp, from, want, k0);
    ApartTail(tmp, s, k0, k);
    PullEnd(p, k, want, size);
    if chain != null {
      PullPart(tmp, chain, size, s, p, k);
      PullRelink(buf, tmp, chain, removedPrev, size, k0, k);
      TailIn(s, tmp, k);
    } else {
      PullAll(buf, tmp);
    }
  }

  lemma FirstBytes(p: seq<seq<Byte>>, k0: nat)
    requires p != [] && k0 <= 1
    ensures |Flatten(p[..k0])| <= |p[0]| && Flatten(p[..0]) == []
  {
    FlattenAt(p, 0);
    FlattenNone();
  }

  /** A buffer with more data than its first chain has a second one. */
  lemma TwoChains(buf: EvBuffer, want: nat)
    requires buf.Valid() && buf.first != null && buf.first.off < want <= buf.totalLen
    ensures |buf.chains| == |buf.pieces| >= 2 && |buf.pieces[0]| == buf.first.off
    ensures buf.first.next == buf.chains[1] && buf.first.Holds(Flatten(buf.pieces[..1]))
            && buf.first.misalign + buf.first.off <= buf.first.buffer.Length
    ensures Flatten(buf.pieces[..0]) == []
    ensures Apart(buf.first, buf.chains[1..])
  {
    hide Flatten, Separate;
    HeldAt(buf.chains, buf.pieces, 0);
    FlattenAt(buf.pieces, 0);
    FlattenNone();
    SeparateAt(buf.chains, 0);
    OnePiece(buf.pieces);
  }

  lemma TailIn(s: seq<Chain>, tmp: Chain, k: nat)
    requires k <= |s|
    ensures forall c :: c in [tmp] + s[k..] ==> c in s || c == tmp
  {
  }

  lemma OnePiece(p: seq<seq<Byte>>)
    ensures |p| == 1 ==> Flatten(p) == p[0]
  {
    if |p| == 1 {
      FlattenOne(p[0]);
      assert p == [p[0]];
    }
  }
}

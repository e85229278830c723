/** Moving data between two evbuffers without copying: the chains change owner. */
module EvbufferMove {
  import opened Bytes
  import opened Pieces
  import opened Evbuffer

  lemma ConcatParts(a: seq<Chain>, b: seq<Chain>)
    requires Separate(a + b)
    ensures Separate(a) && Separate(b)
    ensures forall i :: 0 <= i < |a| ==> Apart(a[i], b)
    ensures forall i :: 0 <= i < |b| ==> Apart(b[i], a)
    ensures Separate(b + a)
  {
    forall i | 0 <= i < |a| ensures Alone(a, i) && Apart(a[i], b) && Alone(b + a, |b| + i) {
      assert Alone(a + b, i) && (a + b)[i] == a[i] == (b + a)[|b| + i];
      assert forall j :: 0 <= j < |a| ==> (a + b)[j] == a[j] == (b + a)[|b| + j];
      assert forall j :: 0 <= j < |b| ==> (a + b)[|a| + j] == b[j] == (b + a)[j];
    }
    forall i | 0 <= i < |b| ensures Alone(b, i) && Apart(b[i], a) && Alone(b + a, i) {
      assert Alone(a + b, |a| + i) && (a + b)[|a| + i] == b[i] == (b + a)[i];
      assert forall j :: 0 <= j < |a| ==> (a + b)[j] == a[j] == (b + a)[|b| + j];
      assert forall j :: 0 <= j < |b| ==> (a + b)[|a| + j] == b[j] == (b + a)[j];
    }
    forall i | 0 <= i < |b + a| ensures Alone(b + a, i) {
      if i >= |b| { assert Alone(b + a, |b| + (i - |b|)); }
    }
  }

  lemma ConcatEnds(a: seq<Chain>, b: seq<Chain>)
    requires a != [] && b != []
    ensures |a + b| >= 2 && (a + b)[0] == a[0] && (a + b)[|a + b| - 1] == b[|b| - 1]
    ensures (a + b)[|a + b| - 2] == if |b| >= 2 then b[|b| - 2] else a[|a| - 1]
  {
  }

  lemma HeldConcat(a: seq<Chain>, pa: seq<seq<Byte>>, b: seq<Chain>, pb: seq<seq<Byte>>)
    requires Held(a, pa) && Held(b, pb)
    ensures Held(a + b, pa + pb) && |pa| == |a| && |pb| == |b|
  {
  }

  lemma PackedConcat(a: seq<seq<Byte>>, b: seq<seq<Byte>>)
    requires Packed(a) && Packed(b) && Flatten(a) != [] && Flatten(b) != []
    ensures Packed(a + b) && a != [] && b != []
  {
    PackedEmpty(a);
    PackedEmpty(b);
    hide Flatten;
    forall p | p in a + b ensures p != [] {
      assert |a| == 1 ==> a == [a[0]];
      assert |b| == 1 ==> b == [b[0]];
    }
  }

  /** `evbuffer_add_buffer`. */
  method AddBuffer(outbuf: EvBuffer, inbuf: EvBuffer) returns (result: int)
    requires outbuf.Valid() && inbuf.Valid()
    requires outbuf != inbuf ==> Separate(outbuf.chains + inbuf.chains)
    modifies outbuf, inbuf, outbuf.chains`next
    ensures outbuf.Valid() && inbuf.Valid()
    ensures outbuf != inbuf ==> Separate(outbuf.chains + inbuf.chains)
    ensures result == if old(inbuf.Contents()) != [] && outbuf != inbuf
                        && (outbuf.freezeEnd || inbuf.freezeStart) then -1 else 0
    ensures outbuf == inbuf || result == -1 ==>
              outbuf.Contents() == old(outbuf.Contents()) && inbuf.Contents() == old(inbuf.Contents())
    ensures outbuf != inbuf && result == 0 ==>
              outbuf.Contents() == old(outbuf.Contents()) + old(inbuf.Contents()) && inbuf.Contents() == []
    ensures forall c :: c in outbuf.chains + inbuf.chains ==> c in old(outbuf.chains + inbuf.chains)
    ensures outbuf.freezeStart == old(outbuf.freezeStart) && outbuf.freezeEnd == old(outbuf.freezeEnd)
    ensures inbuf.freezeStart == old(inbuf.freezeStart) && inbuf.freezeEnd == old(inbuf.freezeEnd)
  {
    hide Flatten, Separate, Held, Linked, Packed;
    ghost var out, in' := outbuf.Contents(), inbuf.Contents();
    if inbuf.totalLen == 0 || outbuf == inbuf {
      assert in' == [] ==> out + in' == out;
      return 0;
    }
    if outbuf.freezeEnd || inbuf.freezeStart { return -1; }
    ghost var outs, ins := outbuf.chains, inbuf.chains;
    ConcatParts(outs, ins);
    if outbuf.totalLen == 0 {
      CopyChain(outbuf, inbuf);
      assert out + in' == in';
    } else {
      AppendChain(outbuf, inbuf);
    }
    inbuf.Zero();
    assert outbuf.chains + inbuf.chains == outbuf.chains;
    return 0;
  }

  /** `COPY_CHAIN`: an empty buffer takes over all chains. */
  method CopyChain(dst: EvBuffer, src: EvBuffer)
    requires src.Valid() && dst != src
    modifies dst
    ensures dst.Valid() && dst.chains == src.chains && dst.Contents() == src.Contents()
    ensures dst.freezeStart == old(dst.freezeStart) && dst.freezeEnd == old(dst.freezeEnd)
  {
    hide Flatten, Separate, Held, Linked, Packed;
    dst.first := src.first;
    dst.lastWithDataPrev := src.lastWithDataPrev;
    dst.last := src.last;
    dst.totalLen := src.totalLen;
    dst.chains, dst.pieces := src.chains, src.pieces;
  }

  /** `APPEND_CHAIN`: all chains of `src` go behind those of `dst`. */
  method AppendChain(dst: EvBuffer, src: EvBuffer)
    requires dst.Valid() && src.Valid() && dst != src && Separate(dst.chains + src.chains)
    requires dst.Contents() != [] && src.Contents() != []
    modifies dst, dst.last`next
    ensures dst.Valid() && dst.chains == old(dst.chains) + src.chains
    ensures dst.Contents() == old(dst.Contents()) + src.Contents()
    ensures dst.freezeStart == old(dst.freezeStart) && dst.freezeEnd == old(dst.freezeEnd)
  {
    hide Flatten, Separate, Held, Linked, Packed, Apart;
    ghost var a, pa, b, pb := dst.chains, dst.pieces, src.chains, src.pieces;
    dst.LastInBounds();
    src.LastInBounds();
    PackedConcat(pa, pb);
    FlattenConcat(pa, pb);
    ConcatParts(a, b);
    ghost var list, pieces := a + b, pa + pb;
    LinkLast(a, dst.last, src.first, b);
    if src.lastWithDataPrev == null {
      dst.lastWithDataPrev := dst.last;
    } else {
      dst.lastWithDataPrev := src.lastWithDataPrev;
    }
    dst.last := src.last;
    dst.totalLen := dst.totalLen + src.totalLen;
    HeldConcat(a, pa, b, pb);
    dst.chains, dst.pieces := list, pieces;
    Assemble(dst, a, b, pieces);
  }

  /** The parts of `Valid` for two lists put together. */
  lemma Assemble(buf: EvBuffer, a: seq<Chain>, b: seq<Chain>, pieces: seq<seq<Byte>>)
    requires a != [] && b != [] && buf.chains == a + b && buf.pieces == pieces
    requires Separate(a + b) && Linked(a + b) && Held(a + b, pieces) && Packed(pieces)
    requires buf.first == a[0] && buf.last == b[|b| - 1]
    requires buf.lastWithDataPrev == if |b| >= 2 then b[|b| - 2] else a[|a| - 1]
    requires buf.totalLen == |Flatten(pieces)|
    ensures buf.Valid()
  {
    hide Flatten, Separate, Held, Linked, Packed;
    ConcatEnds(a, b);
  }

  /** `PREPEND_CHAIN`: all chains of `src` go in front of those of `dst`. */
  method PrependChain(dst: EvBuffer, src: EvBuffer)
    requires dst.Valid() && src.Valid() && dst != src && Separate(src.chains + dst.chains)
    requires dst.Contents() != [] && src.Contents() != []
    modifies dst, src.last`next
    ensures dst.Valid() && dst.chains == src.chains + old(dst.chains)
    ensures dst.Contents() == src.Contents() + old(dst.Contents())
    ensures dst.freezeStart == old(dst.freezeStart) && dst.freezeEnd == old(dst.freezeEnd)
  {
    hide Flatten, Separate, Held, Linked, Packed, Apart;
    ghost var a, pa, b, pb := src.chains, src.pieces, dst.chains, dst.pieces;
    dst.LastInBounds();
    src.LastInBounds();
    PackedConcat(pa, pb);
    FlattenConcat(pa, pb);
    ConcatParts(a, b);
    ghost var list, pieces := a + b, pa + pb;
    LinkLast(a, src.last, dst.first, b);
    dst.first := src.first;
    dst.totalLen := dst.totalLen + src.totalLen;
    // *last_with_datap is not null: dst has data
    if dst.lastWithDataPrev == null { dst.lastWithDataPrev := src.last; }
    HeldConcat(a, pa, b, pb);
    dst.chains, dst.pieces := list, pieces;
    Assemble(dst, a, b, pieces);
  }

  /** `evbuffer_prepend_buffer`. */
  method PrependBuffer(outbuf: EvBuffer, inbuf: EvBuffer) returns (result: int)
    requires outbuf.Valid() && inbuf.Valid()
    requires outbuf != inbuf ==> Separate(outbuf.chains + inbuf.chains)
    modifies outbuf, inbuf, inbuf.chains`next
    ensures outbuf.Valid() && inbuf.Valid()
    ensures outbuf != inbuf ==> Separate(outbuf.chains + inbuf.chains)
    ensures result == if old(inbuf.Contents()) != [] && outbuf != inbuf
                        && (outbuf.freezeStart || inbuf.freezeStart) then -1 else 0
    ensures outbuf == inbuf || result == -1 ==>
              outbuf.Contents() == old(outbuf.Contents()) && inbuf.Contents() == old(inbuf.Contents())
    ensures outbuf != inbuf && result == 0 ==>
              outbuf.Contents() == old(inbuf.Contents()) + old(outbuf.Contents()) && inbuf.Contents() == []
    ensures forall c :: c in outbuf.chains + inbuf.chains ==> c in old(outbuf.chains + inbuf.chains)
    ensures outbuf.freezeStart == old(outbuf.freezeStart) && outbuf.freezeEnd == old(outbuf.freezeEnd)
    ensures inbuf.freezeStart == old(inbuf.freezeStart) && inbuf.freezeEnd == old(inbuf.freezeEnd)
  {
    hide Flatten, Separate, Held, Linked, Packed;
    ghost var out, in' := outbuf.Contents(), inbuf.Contents();
    if inbuf.totalLen == 0 || outbuf == inbuf {
      assert in' == [] ==> in' + out == out;
      return 0;
    }
    if outbuf.freezeStart || inbuf.freezeStart { return -1; }
    ConcatParts(outbuf.chains, inbuf.chains);
    if outbuf.totalLen == 0 {
      CopyChain(outbuf, inbuf);
      assert in' + out == in';
    } else {
      PrependChain(outbuf, inbuf);
    }
    inbuf.Zero();
    assert outbuf.chains + inbuf.chains == outbuf.chains;
    return 0;
  }

  /** The loop of `evbuffer_remove_buffer` that finds the chains to move: all before `chain`; `rest` bytes of
      `chain` itself are still wanted. */
  method FindMoved(src: EvBuffer, datlen: nat)
    returns (chain: Chain, previous: Chain, nread: nat, rest: nat, ghost k: nat)
    requires src.Valid() && datlen < src.totalLen
    modifies src`lastWithDataPrev
    ensures k < |src.chains| == |src.pieces| && chain == src.chains[k]
    ensures k > 0 ==> previous == src.chains[k - 1]
    ensures nread == |Flatten(src.pieces[..k])| && nread + rest == datlen && rest < |src.pieces[k]|
    ensures src.lastWithDataPrev == if k + 1 < |src.chains| then src.chains[|src.chains| - 2] else null
  {
    hide Flatten, Separate, Held, Linked, Packed, Chain.Holds;
    src.LastInBounds();
    k := 0;
    FlattenNone();
    assert src.pieces[..0] == [];
    nread, rest := 0, datlen;
    chain, previous := src.first, src.first;
    WalkBytes(src.chains, src.pieces, 0, 0, rest);
    while chain.off <= rest
      invariant k < |src.chains| == |src.pieces| && chain == src.chains[k] && chain.off == |src.pieces[k]|
      invariant k > 0 ==> previous == src.chains[k - 1]
      invariant nread == |Flatten(src.pieces[..k])| && nread + rest == datlen
      invariant src.lastWithDataPrev == if k + 1 < |src.chains| then src.chains[|src.chains| - 2] else null
      decreases |src.chains| - k
    {
      WalkBytes(src.chains, src.pieces, k, nread, rest);
      Different(src.chains, k, |src.chains| - 2);
      nread := nread + chain.off;
      rest := rest - chain.off;
      previous := chain;
      if src.lastWithDataPrev == chain { src.lastWithDataPrev := null; }
      chain := chain.next;
      k := k + 1;
      WalkBytes(src.chains, src.pieces, k, nread, rest);
    }
  }

  /** `advance_last_with_data`. */
  method AdvanceLastWithData(buf: EvBuffer, ghost list: seq<Chain>, ghost pieces: seq<seq<Byte>>, ghost from: nat)
    requires Linked(list) && Held(list, pieces) && from < |list| && buf.first == list[0]
    requires forall p :: p in pieces ==> p != []
    requires buf.lastWithDataPrev == if from == 0 then null else list[from - 1]
    modifies buf`lastWithDataPrev
    ensures buf.lastWithDataPrev == if |list| < 2 then null else list[|list| - 2]
  {
    hide Chain.Holds, Held;
    if buf.LastWithData() == null { return; }
    ghost var i := from;
    NextOf(list, pieces, i);
    while buf.LastWithData().next != null && buf.LastWithData().next.off != 0
      invariant i < |list| && buf.first == list[0]
      invariant buf.lastWithDataPrev == if i == 0 then null else list[i - 1]
      invariant buf.LastWithData() == list[i]
      decreases |list| - i
    {
      NextOf(list, pieces, i);
      buf.lastWithDataPrev := buf.LastWithData();
      i := i + 1;
    }
    NextOf(list, pieces, i);
  }

  lemma NextOf(list: seq<Chain>, pieces: seq<seq<Byte>>, i: nat)
    requires Linked(list) && Held(list, pieces) && i < |list|
    requires forall p :: p in pieces ==> p != []
    ensures list[i].next == if i + 1 < |list| then list[i + 1] else null
    ensures i + 1 < |list| ==> list[i + 1].off != 0
    ensures i > 0 ==> list[i - 1].next == list[i]
  {
    if i + 1 < |list| { assert pieces[i + 1] in pieces; }
  }

  lemma FlattenNonEmpty(pieces: seq<seq<Byte>>)
    requires Packed(pieces) && Flatten(pieces) != []
    ensures pieces != [] && forall p :: p in pieces ==> p != []
  {
    PackedEmpty(pieces);
    assert |pieces| == 1 ==> pieces == [pieces[0]];
  }

  /** `*last_with_datap` is the last chain, and it is empty only if the buffer is. */
  lemma LastOf(buf: EvBuffer)
    requires buf.Valid()
    ensures buf.LastWithData() == buf.last
    ensures buf.last != null ==> buf.last.next == null && (buf.last.off == 0 <==> buf.totalLen == 0)
    ensures buf.totalLen == 0 ==> |buf.chains| <= 1 && buf.lastWithDataPrev == null
    ensures buf.totalLen == 0 <==> buf.Contents() == []
    ensures buf.last == null ==> buf.totalLen == 0
    ensures buf.last == null <==> buf.first == null
  {
    hide Separate;
    PackedEmpty(buf.pieces);
    if buf.last != null {
      HeldAt(buf.chains, buf.pieces, |buf.chains| - 1);
      LastLink(buf.chains);
      assert |buf.pieces| > 1 ==> buf.pieces[|buf.pieces| - 1] in buf.pieces;
    } else {
      FlattenNone();
    }
  }

  lemma ListNonEmpty(kept: seq<seq<Byte>>, moved: seq<seq<Byte>>)
    requires (Packed(kept) && Flatten(kept) != []) || kept == []
    requires forall p :: p in moved ==> p != []
    ensures (forall p :: p in kept + moved ==> p != []) && Packed(kept + moved)
  {
    if kept != [] { FlattenNonEmpty(kept); }
  }

  /** `evbuffer_free_trailing_empty_chains` and the link behind it: the list `moved` of `nread` bytes, ending in
      `previous`, follows the data of `dst`. */
  method TakeChains(dst: EvBuffer, from: Chain, previous: Chain, nread: nat, ghost moved: seq<Chain>,
                    ghost pieces: seq<seq<Byte>>)
    requires dst.Valid() && Separate(dst.chains + moved)
    requires moved != [] && Linked(moved) && Held(moved, pieces) && (forall p :: p in pieces ==> p != [])
    requires from == moved[0] && previous == moved[|moved| - 1] && nread == |Flatten(pieces)|
    modifies dst, dst.chains`next
    ensures dst.Valid()
    ensures dst.chains == (if old(dst.Contents()) == [] then [] else old(dst.chains)) + moved
    ensures dst.Contents() == old(dst.Contents()) + Flatten(pieces)
    ensures dst.freezeStart == old(dst.freezeStart) && dst.freezeEnd == old(dst.freezeEnd)
  {
    hide Flatten, Separate, Held, Linked, Packed, Apart;
    LastOf(dst);
    dst.LastInBounds();
    // walk from *last_with_datap to the first empty chain, if any
    var ch, prev := dst.LastWithData(), dst.lastWithDataPrev;
    while ch != null && ch.off != 0
      invariant ch == dst.last || (ch == null && dst.last != null && dst.last.off != 0)
      invariant ch == dst.last ==> prev == dst.lastWithDataPrev
      invariant ch != dst.last ==> prev == dst.last
      decreases ch != null
    {
      prev := ch;
      ch := ch.next;
    }
    if dst.totalLen == 0 {
      // the only chain, if there is one, was empty; it is gone
      ConcatParts(dst.chains, moved);
      Replace(dst, from, previous, nread, moved, pieces);
    } else {
      Follow(dst, prev, from, previous, nread, moved, pieces);
    }
  }

  /** `moved` becomes the whole list of an empty buffer. */
  method Replace(dst: EvBuffer, from: Chain, previous: Chain, nread: nat, ghost moved: seq<Chain>,
                 ghost pieces: seq<seq<Byte>>)
    requires dst.lastWithDataPrev == null && dst.totalLen == 0
    requires Separate(moved) && moved != [] && Linked(moved) && Held(moved, pieces)
             && (forall p :: p in pieces ==> p != [])
    requires from == moved[0] && previous == moved[|moved| - 1] && nread == |Flatten(pieces)|
    modifies dst
    ensures dst.Valid() && dst.chains == moved && dst.Contents() == Flatten(pieces)
    ensures dst.freezeStart == old(dst.freezeStart) && dst.freezeEnd == old(dst.freezeEnd)
  {
    hide Flatten, Separate, Held, Linked;
    dst.first := from;
    dst.last := previous;
    AdvanceLastWithData(dst, moved, pieces, 0);
    dst.totalLen := dst.totalLen + nread;
    dst.chains, dst.pieces := moved, pieces;
  }

  /** `moved` follows the last chain of a buffer with data. */
  method Follow(dst: EvBuffer, prev: Chain, from: Chain, previous: Chain, nread: nat, ghost moved: seq<Chain>,
                ghost pieces: seq<seq<Byte>>)
    requires dst.Valid() && dst.Contents() != [] && prev == dst.last && Separate(dst.chains + moved)
    requires moved != [] && Linked(moved) && Held(moved, pieces) && (forall p :: p in pieces ==> p != [])
    requires from == moved[0] && previous == moved[|moved| - 1] && nread == |Flatten(pieces)|
    modifies dst, dst.last`next
    ensures dst.Valid() && dst.chains == old(dst.chains) + moved
            && dst.Contents() == old(dst.Contents()) + Flatten(pieces)
    ensures dst.freezeStart == old(dst.freezeStart) && dst.freezeEnd == old(dst.freezeEnd)
  {
    hide Flatten, Separate, Held, Linked, Packed, Apart;
    dst.LastInBounds();
    ghost var a, pa := dst.chains, dst.pieces;
    LastOf(dst);
    FlattenConcat(pa, pieces);
    ListNonEmpty(pa, pieces);
    ConcatParts(a, moved);
    ConcatEnds(a, moved);
    ghost var list, all := a + moved, pa + pieces;
    LinkLast(a, prev, from, moved);
    HeldConcat(a, pa, moved, pieces);
    dst.last := previous;
    AdvanceLastWithData(dst, list, all, |a| - 1);
    dst.totalLen := dst.totalLen + nread;
    dst.chains, dst.pieces := list, all;
  }

  /** Nothing of one list is part of the other. */
  ghost predicate Foreign(a: seq<Chain>, b: seq<Chain>) {
    forall c, d :: c in a && d in b ==> c != d && c.buffer != d.buffer
  }

  lemma SeparateJoin(a: seq<Chain>, b: seq<Chain>)
    requires Separate(a) && Separate(b) && Foreign(a, b)
    ensures Separate(a + b)
  {
    forall i | 0 <= i < |a + b| ensures Alone(a + b, i) {
      if i < |a| { assert Alone(a, i) && a[i] in a; } else { assert Alone(b, i - |a|) && b[i - |a|] in b; }
      forall j | 0 <= j < |a + b| && j != i ensures (a + b)[j] != (a + b)[i] && (a + b)[j].buffer != (a + b)[i].buffer {
        if j < |a| { assert a[j] in a; } else { assert b[j - |a|] in b; }
      }
    }
  }

  /** Cutting the list `s` of one buffer at `k`, with `d` the list of another. */
  lemma SplitLists(s: seq<Chain>, pieces: seq<seq<Byte>>, d: seq<Chain>, k: nat)
    requires Separate(s + d) && Held(s, pieces) && 0 < k < |s|
    ensures |pieces| == |s|
    ensures Separate(d + s[..k]) && Foreign(s[k..], d + s[..k])
    ensures Held(s[..k], pieces[..k])
    ensures Apart(s[k - 1], s[k..])
  {
    ConcatParts(s, d);
    ForeignWhole(s, d);
    Halves(s, k);
    SeparateAt(s, k - 1);
    assert s[k..] == s[k - 1 + 1..];
    forall c, e | c in d && e in s[..k] ensures c != e && c.buffer != e.buffer { assert e in s; }
    SeparateJoin(d, s[..k]);
    forall c, e | c in s[k..] && e in d + s[..k] ensures c != e && c.buffer != e.buffer {
      assert c in s;
    }
  }

  lemma Halves(s: seq<Chain>, k: nat)
    requires Separate(s) && k <= |s|
    ensures Separate(s[..k]) && Separate(s[k..]) && Foreign(s[k..], s[..k])
  {
    assert s == s[..k] + s[k..];
    ConcatParts(s[..k], s[k..]);
    ForeignWhole(s[..k], s[k..]);
  }

  lemma ApartNotIn(c: Chain, list: seq<Chain>)
    requires Apart(c, list)
    ensures c !in list && forall d :: d in list ==> d.buffer != c.buffer
  {
  }

  lemma LinkedPrefix(s: seq<Chain>, k: nat)
    requires Linked(s) && 0 < k < |s|
    ensures forall i :: 0 <= i < k - 1 ==> s[i].next == s[i + 1]
    ensures Linked(s[k..])
  {
  }

  lemma PackedPrefix(pieces: seq<seq<Byte>>, k: nat)
    requires Packed(pieces) && 0 < k < |pieces|
    ensures forall p :: p in pieces[..k] ==> p != []
  {
    forall p | p in pieces[..k] ensures p in pieces {}
  }

  /** `previous->next = NULL`: the list `s` falls into `s[..k]` and `s[k..]`. */
  method CutLink(ghost s: seq<Chain>, previous: Chain, ghost k: nat)
    requires Separate(s) && Linked(s) && 0 < k < |s| && previous == s[k - 1]
    modifies previous`next
    ensures Linked(s[..k]) && Linked(s[k..])
  {
    SeparateAt(s, k - 1);
    LinkedPrefix(s, k);
    assert Apart(previous, s[k..]);
    hide Separate;
    previous.next := null;
  }

  /** Whole chains change owner: `src.chains[..k]` go to `dst`. */
  method MoveChains(src: EvBuffer, dst: EvBuffer, chain: Chain, previous: Chain, nread: nat, ghost k: nat)
    requires src != dst && dst.Valid() && Separate(src.chains + dst.chains)
    requires Linked(src.chains) && Held(src.chains, src.pieces) && Packed(src.pieces)
    requires 0 < k < |src.chains| == |src.pieces| && previous == src.chains[k - 1] && chain == src.chains[k]
             && src.first == src.chains[0]
    requires nread == |Flatten(src.pieces[..k])|
    modifies src`first, dst, src.chains`next, dst.chains`next
    ensures dst.Valid() && dst.Contents() == old(dst.Contents()) + Flatten(src.pieces[..k])
    ensures src.first == chain
    ensures Linked(src.chains[k..]) && Held(src.chains[k..], src.pieces[k..])
    ensures Foreign(src.chains[k..], dst.chains)
    ensures forall c :: c in dst.chains ==> c in old(dst.chains) || c in src.chains
    ensures dst.freezeStart == old(dst.freezeStart) && dst.freezeEnd == old(dst.freezeEnd)
  {
    hide Flatten, Separate, Held, Linked, Packed, Apart;
    ghost var s, p, d := src.chains, src.pieces, dst.chains;
    ghost var moved, movedPieces, rest := s[..k], p[..k], s[k..];
    SplitLists(s, p, d, k);
    ConcatParts(s, d);
    Suffix(s, p, k);
    PackedPrefix(p, k);
    CutLink(s, previous, k);
    ApartNotIn(previous, d);
    TakeChains(dst, src.first, previous, nread, moved, movedPieces);
    src.first := chain;
  }

  /** The last bytes are copied out of the chain that stays first in `src`; `rest` is what `src` keeps. */
  method CopyTail(src: EvBuffer, dst: EvBuffer, datlen: nat, n: nat, ghost rest: seq<Chain>,
                  ghost restPieces: seq<seq<Byte>>)
    requires src != dst && dst.Valid() && !dst.freezeEnd
    requires Separate(rest) && Linked(rest) && Held(rest, restPieces) && Packed(restPieces) && Foreign(rest, dst.chains)
    requires rest != [] && |restPieces| == |rest| && n < |restPieces[0]|
    requires src.first == rest[0] && src.last == rest[|rest| - 1]
    requires src.lastWithDataPrev == if |rest| >= 2 then rest[|rest| - 2] else null
    requires src.totalLen - datlen == |Flatten(restPieces)| - n && datlen <= src.totalLen
    modifies src, src.first`misalign, src.first`off, dst, dst.last, if dst.last == null then {} else {dst.last.buffer}
    ensures src.Valid() && dst.Valid() && Separate(src.chains + dst.chains) && src.chains == rest
    ensures n <= |Flatten(restPieces)| && src.Contents() == Flatten(restPieces)[n..]
    ensures dst.Contents() == old(dst.Contents()) + Flatten(restPieces)[..n]
    ensures forall c :: c in dst.chains ==> c in old(dst.chains) || (fresh(c) && fresh(c.buffer))
    ensures src.freezeStart == old(src.freezeStart) && src.freezeEnd == old(src.freezeEnd)
    ensures dst.freezeStart == old(dst.freezeStart) && dst.freezeEnd == old(dst.freezeEnd)
  {
    hide Flatten, Separate, Held, Linked, Packed, Apart, Chain.Holds;
    HeldAt(rest, restPieces, 0);
    FlattenFirst(restPieces, []);
    var data := src.first.Get(n, restPieces[0]);
    ForeignLast(rest, dst);
    var r := dst.Add(data);
    src.totalLen := src.totalLen - datlen;
    ForeignFirst(rest, dst.chains);
    src.CutFirst(rest, restPieces, n);
    SeparateJoin(rest, dst.chains);
  }

  lemma ForeignLast(rest: seq<Chain>, dst: EvBuffer)
    requires dst.Valid() && Foreign(rest, dst.chains)
    ensures dst.last != null ==>
              dst.last in dst.chains && dst.last !in rest && forall c :: c in rest ==> c.buffer != dst.last.buffer
  {
    if dst.last != null { assert dst.last in dst.chains; }
  }

  lemma ForeignFirst(rest: seq<Chain>, list: seq<Chain>)
    requires rest != [] && Foreign(rest, list)
    ensures rest[0] !in list && forall c :: c in list ==> c.buffer != rest[0].buffer
  {
    assert rest[0] in rest;
  }

  /** Moving fewer bytes than `src` holds. */
  method MoveSome(src: EvBuffer, dst: EvBuffer, datlen: nat)
    requires src != dst && src.Valid() && dst.Valid() && Separate(src.chains + dst.chains) && !dst.freezeEnd
    requires 0 < datlen < src.totalLen
    modifies src, dst, src.chains, set c | c in src.chains :: c.buffer
    modifies dst.chains, set c | c in dst.chains :: c.buffer
    ensures src.Valid() && dst.Valid() && Separate(src.chains + dst.chains)
    ensures dst.Contents() == old(dst.Contents()) + old(src.Contents())[..datlen]
    ensures src.Contents() == old(src.Contents())[datlen..]
    ensures src.freezeStart == old(src.freezeStart) && src.freezeEnd == old(src.freezeEnd)
    ensures dst.freezeStart == old(dst.freezeStart) && dst.freezeEnd == old(dst.freezeEnd)
  {
    hide Flatten, Separate, Held, Linked, Packed, Apart, Chain.Holds;
    ghost var s, p, d := src.chains, src.pieces, dst.chains;
    ghost var in', out := src.Contents(), dst.Contents();
    var chain, previous, nread, n;
    ghost var k;
    chain, previous, nread, n, k := FindMoved(src, datlen);
    ghost var rest, restPieces := s[k..], p[k..];
    FlattenSplit(p, k);
    Suffix(s, p, k);
    FlattenNone();
    ConcatParts(s, d);
    if nread > 0 {
      MoveChains(src, dst, chain, previous, nread, k);
    } else {
      NothingMoved(p, k);
      ForeignWhole(s, d);
    }
    ForeignLast(rest, dst);
    assert rest[0] == s[k];
    CopyTail(src, dst, datlen, n, rest, restPieces);
    Cut(Flatten(p[..k]), Flatten(restPieces), n, in', datlen, out);
  }

  lemma NothingMoved(pieces: seq<seq<Byte>>, k: nat)
    requires Packed(pieces) && k < |pieces|
    ensures k > 0 ==> Flatten(pieces[..k]) != []
  {
    if k > 0 {
      FlattenFirst(pieces[..k], []);
      assert pieces[0] in pieces;
    }
  }

  lemma ForeignWhole(a: seq<Chain>, b: seq<Chain>)
    requires Separate(a + b)
    ensures Foreign(a, b)
  {
    ConcatParts(a, b);
    forall c, d | c in a && d in b ensures c != d && c.buffer != d.buffer {
      var i :| 0 <= i < |a| && a[i] == c;
      assert Apart(a[i], b);
    }
  }

  lemma Cut(a: seq<Byte>, b: seq<Byte>, n: nat, whole: seq<Byte>, m: nat, out: seq<Byte>)
    requires whole == a + b && n <= |b| && m == |a| + n
    ensures out + a + b[..n] == out + whole[..m] && b[n..] == whole[m..]
  {
  }

  /** `evbuffer_remove_buffer`. */
  method RemoveBuffer(src: EvBuffer, dst: EvBuffer, datlen: nat) returns (result: int)
    requires src.Valid() && dst.Valid()
    requires src != dst ==> Separate(src.chains + dst.chains)
    modifies src, dst, src.chains, set c | c in src.chains :: c.buffer
    modifies dst.chains, set c | c in dst.chains :: c.buffer
    ensures src.Valid() && dst.Valid()
    ensures src != dst ==> Separate(src.chains + dst.chains)
    ensures result == if datlen == 0 || src == dst then 0
                      else if old(dst.freezeEnd) || old(src.freezeStart) then -1
                      else if datlen >= |old(src.Contents())| then |old(src.Contents())| else datlen
    ensures src == dst || result == -1 ==>
              src.Contents() == old(src.Contents()) && dst.Contents() == old(dst.Contents())
    ensures src != dst && result >= 0 ==>
              && dst.Contents() == old(dst.Contents()) + old(src.Contents())[..result]
              && src.Contents() == old(src.Contents())[result..]
  {
    hide Flatten, Separate, Held, Linked, Packed, Apart, Chain.Holds;
    ghost var in', out := src.Contents(), dst.Contents();
    if datlen == 0 || dst == src {
      assert out + in'[..0] == out && in'[0..] == in';
      return 0;
    }
    if dst.freezeEnd || src.freezeStart { return -1; }
    if datlen >= src.totalLen {
      var n := src.totalLen;
      ghost var d, s := dst.chains, src.chains;
      ConcatParts(s, d);
      var r := AddBuffer(dst, src);
      ConcatParts(dst.chains, src.chains);
      assert in'[..n] == in' && in'[n..] == [];
      assert in' == [] ==> out + in' == out;
      return n;
    }
    MoveSome(src, dst, datlen);
    return datlen;
  }
}

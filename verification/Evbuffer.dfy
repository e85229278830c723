/** The byte queue of libevent: a linked list of chains, each with its own memory, and a pointer to the link that
    leads to the last chain with data.  Everything is stated against the plain byte sequence it stands for. */
module Evbuffer {
  import opened Bytes
  import opened Pieces

  const MIN_BUFFER_SIZE: nat := 1024
  const CHAIN_SIZE: nat := 48      // sizeof (struct evbuffer_chain)
  const MAX_TO_REALIGN: nat := 2048
  const CHAIN_MAX_AUTO_SIZE: nat := 4096

  /** `struct evbuffer_chain`, mutable and unpinned: the data is `buffer[misalign..misalign + off]`. */
  class Chain {
    var next: Chain?
    const buffer: array<Byte>
    var misalign: nat
    var off: nat

    /** `evbuffer_chain_new`: room for at least `size` bytes. */
    constructor (size: nat)
      ensures fresh(buffer) && buffer.Length >= size && buffer.Length > 0
      ensures next == null && misalign == 0 && off == 0
    {
      var toAlloc := MIN_BUFFER_SIZE;
      while toAlloc < size + CHAIN_SIZE
        invariant toAlloc >= MIN_BUFFER_SIZE
      {
        toAlloc := toAlloc * 2;
      }
      buffer := new Byte[toAlloc - CHAIN_SIZE];
      next := null;
      misalign, off := 0, 0;
    }

    /** The chain's bytes are `p`. */
    ghost predicate Holds(p: seq<Byte>)
      reads this`misalign, this`off, buffer
    {
      && misalign + off <= buffer.Length
      && buffer.Length > 0
      && |p| == off
      && forall i :: misalign <= i < misalign + off ==> buffer[i] == p[i - misalign]
    }

    /** `memcpy` behind the data, where there is room. */
    method Put(data: seq<Byte>, ghost p: seq<Byte>)
      requires Holds(p) && misalign + off + |data| <= buffer.Length
      modifies this`off, buffer
      ensures Holds(p + data)
    {
      forall i | 0 <= i < |data| { buffer[misalign + off + i] := data[i]; }
      off := off + |data|;
    }

    /** `memcpy` in front of the data, into the misalignment. */
    method PutFront(data: seq<Byte>, ghost p: seq<Byte>)
      requires Holds(p) && |data| <= misalign
      modifies this`off, this`misalign, buffer
      ensures Holds(data + p) && misalign == old(misalign) - |data|
    {
      forall i | 0 <= i < |data| { buffer[misalign - |data| + i] := data[i]; }
      off := off + |data|;
      misalign := misalign - |data|;
    }

    /** `evbuffer_chain_align`: move the data to the front of the buffer. */
    method Align(ghost p: seq<Byte>)
      requires Holds(p)
      modifies this`misalign, buffer
      ensures Holds(p) && misalign == 0
    {
      forall i | 0 <= i < off { buffer[i] := buffer[misalign + i]; }
      misalign := 0;
    }

    /** `evbuffer_chain_should_realign`. */
    predicate ShouldRealign(size: nat)
      reads this
    {
      buffer.Length >= size + off && off < buffer.Length / 2 && off <= MAX_TO_REALIGN
    }

    /** `memcpy` of the first `n` bytes of the data. */
    method Get(n: nat, ghost p: seq<Byte>) returns (data: seq<Byte>)
      requires Holds(p) && n <= off
      ensures data == p[..n]
    {
      data := buffer[misalign..misalign + n];
    }

    /** Drop the first `n` bytes. */
    method Skip(n: nat, ghost p: seq<Byte>)
      requires Holds(p) && n <= off
      modifies this`misalign, this`off
      ensures Holds(p[n..])
    {
      misalign := misalign + n;
      off := off - n;
    }
  }

  /** Chain `i` of the list is no other chain of it and shares memory with none. */
  ghost predicate Alone(chains: seq<Chain>, i: nat)
    requires i < |chains|
  {
    forall j :: 0 <= j < |chains| && j != i ==> chains[j] != chains[i] && chains[j].buffer != chains[i].buffer
  }

  /** No two chains are the same or share memory. */
  ghost predicate Separate(chains: seq<Chain>) {
    forall i {:trigger Alone(chains, i)} :: 0 <= i < |chains| ==> Alone(chains, i)
  }

  ghost predicate Held(chains: seq<Chain>, pieces: seq<seq<Byte>>)
    reads chains`misalign, chains`off, set c | c in chains :: c.buffer
  {
    |pieces| == |chains| && forall i :: 0 <= i < |chains| ==> chains[i].Holds(pieces[i])
  }

  ghost predicate Linked(chains: seq<Chain>)
    reads chains`next
  {
    && (chains != [] ==> chains[|chains| - 1].next == null)
    && forall i {:trigger chains[i].next} :: 0 <= i < |chains| - 1 ==> chains[i].next == chains[i + 1]
  }

  /** Nothing of `c` is part of the list. */
  ghost predicate Apart(c: Chain, chains: seq<Chain>) {
    forall i :: 0 <= i < |chains| ==> chains[i] != c && chains[i].buffer != c.buffer
  }

  lemma SeparatePush(chains: seq<Chain>, c: Chain)
    requires Separate(chains) && Apart(c, chains)
    ensures Separate(chains + [c])
  {
    forall i | 0 <= i < |chains + [c]| ensures Alone(chains + [c], i) {
      if i < |chains| { assert Alone(chains, i); }
    }
  }

  lemma SeparateAt(chains: seq<Chain>, k: nat)
    requires Separate(chains) && k < |chains|
    ensures Apart(chains[k], chains[..k]) && Apart(chains[k], chains[k + 1..])
    ensures forall i :: 0 <= i < |chains| && i != k ==> chains[i] != chains[k] && chains[i].buffer != chains[k].buffer
  {
    assert Alone(chains, k);
  }

  lemma HeldPush(chains: seq<Chain>, pieces: seq<seq<Byte>>, c: Chain, p: seq<Byte>)
    requires Held(chains, pieces) && c.Holds(p)
    ensures Held(chains + [c], pieces + [p])
  {
  }

  /** `at->next = c` at the end of a list. */
  method LinkLast(ghost chains: seq<Chain>, at: Chain, c: Chain?, ghost more: seq<Chain>)
    requires chains != [] && Separate(chains) && Linked(chains) && at == chains[|chains| - 1]
    requires Linked(more) && c == (if more == [] then null else more[0]) && Apart(at, more)
    modifies at`next
    ensures Linked(chains + more) && at.next == c
  {
    SeparateAt(chains, |chains| - 1);
    hide Separate;
    at.next := c;
  }

  /** A new chain with data in it. */
  method NewChain(size: nat, data: seq<Byte>) returns (c: Chain)
    requires |data| <= size
    ensures fresh(c) && fresh(c.buffer) && c.next == null && c.Holds(data)
    ensures c.misalign + size <= c.buffer.Length
  {
    c := new Chain(size);
    c.Put(data, []);
    assert [] + data == data;
  }

  /** A new chain with data at the end of its memory. */
  method NewFrontChain(data: seq<Byte>) returns (c: Chain)
    ensures fresh(c) && fresh(c.buffer) && c.next == null && c.Holds(data)
  {
    c := new Chain(|data|);
    c.off := |data|;
    c.misalign := c.buffer.Length - |data|;
    forall i | 0 <= i < |data| { c.buffer[c.misalign + i] := data[i]; }
  }

  lemma SeparateFront(chains: seq<Chain>, c: Chain)
    requires Separate(chains) && Apart(c, chains)
    ensures Separate([c] + chains)
  {
    forall i | 0 <= i < |[c] + chains| ensures Alone([c] + chains, i) {
      if i > 0 { assert Alone(chains, i - 1); }
    }
  }

  lemma HeldFront(chains: seq<Chain>, pieces: seq<seq<Byte>>, c: Chain, p: seq<Byte>)
    requires Held(chains, pieces) && c.Holds(p)
    ensures Held([c] + chains, [p] + pieces)
  {
  }

  lemma PackedFront(pieces: seq<seq<Byte>>, p: seq<Byte>)
    requires Packed(pieces) && p != [] && pieces != [] && pieces[0] != []
    ensures Packed([p] + pieces)
  {
    forall q | q in [p] + pieces ensures q != [] {
      assert |pieces| == 1 ==> pieces == [pieces[0]];
    }
  }

  lemma Suffix(chains: seq<Chain>, pieces: seq<seq<Byte>>, k: nat)
    requires k <= |chains| && Separate(chains) && Linked(chains) && Held(chains, pieces) && Packed(pieces)
    ensures Separate(chains[k..]) && Linked(chains[k..]) && Held(chains[k..], pieces[k..]) && Packed(pieces[k..])
  {
    forall p | p in pieces[k..] ensures p in pieces {}
    forall i | 0 <= i < |chains[k..]| ensures Alone(chains[k..], i) {
      assert Alone(chains, k + i);
    }
  }

  /** Chain `n` changed what it holds, the others did not. */
  lemma HeldUpdate(chains: seq<Chain>, pieces: seq<seq<Byte>>, n: nat, p: seq<Byte>)
    requires n < |chains| == |pieces| && chains[n].Holds(p)
    requires forall i :: 0 <= i < |chains| && i != n ==> chains[i].Holds(pieces[i])
    ensures Held(chains, pieces[n := p])
  {
  }

  lemma PackedGrow(pieces: seq<seq<Byte>>, n: nat, data: seq<Byte>)
    requires Packed(pieces) && n < |pieces|
    ensures Packed(pieces[n := pieces[n] + data])
  {
    var after := pieces[n := pieces[n] + data];
    forall p | p in after && |after| > 1 ensures p != [] {
      var i :| 0 <= i < |after| && after[i] == p;
      assert pieces[i] in pieces;
    }
  }

  lemma PackedGrowFront(pieces: seq<seq<Byte>>, data: seq<Byte>)
    requires Packed(pieces) && pieces != []
    ensures Packed(pieces[0 := data + pieces[0]])
  {
    var after := pieces[0 := data + pieces[0]];
    forall p | p in after && |after| > 1 ensures p != [] {
      var i :| 0 <= i < |after| && after[i] == p;
      assert pieces[i] in pieces;
    }
  }

  lemma HoldsLength(c: Chain, p: seq<Byte>)
    requires c.Holds(p)
    ensures c.off == |p|
  {
  }

  lemma LinkedOne(c: Chain)
    requires c.next == null
    ensures Linked([c])
  {
  }

  lemma SeparateOne(c: Chain)
    ensures Separate([c])
  {
  }

  lemma LastLink(chains: seq<Chain>)
    requires Linked(chains)
    ensures |chains| >= 2 ==> chains[|chains| - 2].next == chains[|chains| - 1]
  {
  }

  lemma HeldAt(chains: seq<Chain>, pieces: seq<seq<Byte>>, k: nat)
    requires Held(chains, pieces) && k < |chains|
    ensures |pieces| == |chains| && chains[k].Holds(pieces[k]) && chains[k].off == |pieces[k]|
    ensures forall i :: 0 <= i < |chains| ==> chains[i].Holds(pieces[i])
  {
  }

  lemma Different(chains: seq<Chain>, i: nat, j: nat)
    requires Separate(chains) && i < |chains| && j < |chains|
    ensures chains[i] == chains[j] <==> i == j
  {
    assert Alone(chains, i);
  }

  lemma DropMore(a: seq<Byte>, b: seq<Byte>, n: nat)
    requires n <= |b|
    ensures b[n..] == (a + b)[|a| + n..]
  {
  }

  /** Walking along the list: `gone` bytes lie before chain `k`, and more than `gone + m` bytes are there. */
  lemma WalkBytes(chains: seq<Chain>, pieces: seq<seq<Byte>>, k: nat, gone: nat, m: nat)
    requires Linked(chains) && Held(chains, pieces) && k < |chains|
    requires gone == |Flatten(pieces[..k])| && gone + m < |Flatten(pieces)|
    ensures |pieces| == |chains| && chains[k].off == |pieces[k]|
    ensures m >= |pieces[k]| ==>
              && k + 1 < |chains|
              && chains[k].next == chains[k + 1]
              && |Flatten(pieces[..k + 1])| == gone + |pieces[k]|
  {
    hide Flatten;
    FlattenAt(pieces, k);
    FlattenNone();
    if k + 1 == |chains| { assert pieces[k + 1..] == []; }
  }

  lemma CopyStep(chains: seq<Chain>, pieces: seq<seq<Byte>>, k: nat)
    requires Linked(chains) && Held(chains, pieces) && k < |chains|
    ensures |pieces| == |chains| && Flatten(pieces[..k + 1]) == Flatten(pieces[..k]) + pieces[k]
    ensures chains[k].next == if k + 1 < |chains| then chains[k + 1] else null
    ensures |Flatten(pieces[..k + 1])| == |Flatten(pieces)| <==> Flatten(pieces[k + 1..]) == []
  {
    FlattenAt(pieces, k);
  }

  /** Cutting inside piece `k` drops what lies before. */
  lemma FlattenCut(pieces: seq<seq<Byte>>, k: nat, m: nat, cut: seq<seq<Byte>>)
    requires k < |pieces| && m <= |pieces[k]|
    requires cut == [pieces[k][m..]] + pieces[k + 1..]
    ensures |Flatten(pieces[..k])| + m <= |Flatten(pieces)|
    ensures Flatten(cut) == Flatten(pieces)[|Flatten(pieces[..k])| + m..]
    ensures Flatten(pieces)[..|Flatten(pieces[..k])| + m] == Flatten(pieces[..k]) + pieces[k][..m]
  {
    hide Flatten;
    FlattenAt(pieces, k);
    FlattenFirst(cut, []);
    assert cut[1..] == pieces[k + 1..];
  }

  lemma PackedCut(pieces: seq<seq<Byte>>, m: nat)
    requires Packed(pieces) && pieces != [] && m < |pieces[0]|
    ensures Packed(pieces[0 := pieces[0][m..]])
  {
    var cut := pieces[0 := pieces[0][m..]];
    forall p | p in cut && |cut| > 1 ensures p != [] {
      var i :| 0 <= i < |cut| && cut[i] == p;
      assert pieces[i] in pieces;
    }
  }

  class EvBuffer {
    var first: Chain?
    var last: Chain?
    /** `last_with_datap` is `&lastWithDataPrev->next`, or `&first` when this is null. */
    var lastWithDataPrev: Chain?
    var totalLen: nat
    var freezeStart: bool
    var freezeEnd: bool
    ghost var chains: seq<Chain>
    ghost var pieces: seq<seq<Byte>>

    /** The representation: `chains` from `first` to `last` hold `pieces`, none empty unless alone, and
        `last_with_datap` designates the last one. */
    ghost predicate Valid()
      reads this, chains, set c | c in chains :: c.buffer
    {
      && Separate(chains) && Linked(chains) && Held(chains, pieces)
      && Packed(pieces)
      && Ends()
      && totalLen == |Flatten(pieces)|
    }

    ghost predicate Ends()
      reads this
    {
      && first == (if chains == [] then null else chains[0])
      && last == (if chains == [] then null else chains[|chains| - 1])
      && lastWithDataPrev == (if |chains| < 2 then null else chains[|chains| - 2])
    }

    /** The bytes in the buffer. */
    ghost function Contents(): seq<Byte>
      reads this
    {
      Flatten(pieces)
    }

    constructor ()
      ensures Valid() && Contents() == [] && chains == [] && !freezeStart && !freezeEnd
    {
      first, last, lastWithDataPrev := null, null, null;
      totalLen := 0;
      freezeStart, freezeEnd := false, false;
      chains, pieces := [], [];
    }

    /** `*last_with_datap`. */
    function LastWithData(): Chain?
      reads this, lastWithDataPrev
    {
      if lastWithDataPrev == null then first else lastWithDataPrev.next
    }

    /** `chain` becomes the only chain. */
    method InsertAlone(chain: Chain, ghost p: seq<Byte>)
      requires chain.Holds(p) && chain.next == null
      requires lastWithDataPrev == null && totalLen == 0
      modifies this
      ensures Valid() && chains == [chain] && pieces == [p] && totalLen == |p|
      ensures freezeStart == old(freezeStart) && freezeEnd == old(freezeEnd)
    {
      FlattenOne(p);
      hide Flatten;
      first, last := chain, chain;
      totalLen := totalLen + chain.off;
      chains, pieces := [chain], [p];
    }

    /** `chain` is linked behind the last chain, which has data. */
    method LinkBehind(chain: Chain, ghost p: seq<Byte>)
      requires Valid() && chains != [] && Packed(pieces + [p])
      requires Apart(chain, chains)
      requires chain.Holds(p) && chain.next == null && p != []
      modifies this, last
      ensures Valid() && chains == old(chains) + [chain] && pieces == old(pieces) + [p]
      ensures freezeStart == old(freezeStart) && freezeEnd == old(freezeEnd)
    {
      ghost var chains', pieces' := chains, pieces;
      FlattenPush(pieces', p);
      SeparatePush(chains', chain);
      assert chain.off == |p| && Linked([chain]);
      hide Flatten, Packed, Separate, Linked, Held;
      LinkLast(chains', last, chain, [chain]);
      HeldPush(chains', pieces', chain, p);
      if chain.off != 0 { lastWithDataPrev := last; }
      last := chain;
      totalLen := totalLen + chain.off;
      chains, pieces := chains' + [chain], pieces' + [p];
    }

    lemma HasBytes()
      requires Valid()
      ensures chains != [] && last.off != 0 ==> Contents() != []
    {
      PackedEmpty(pieces);
    }

    lemma PackedPush(p: seq<Byte>)
      requires Valid() && Contents() != [] && p != []
      ensures chains != [] && Packed(pieces + [p]) && pieces[|pieces| - 1] != []
    {
      PackedEmpty(pieces);
      assert |pieces| > 1 ==> pieces[|pieces| - 1] in pieces;
    }

    /** `evbuffer_chain_insert`: a new chain behind the data, in place of an empty chain if that is all there is. */
    method ChainInsert(chain: Chain, ghost p: seq<Byte>)
      requires Valid()
      requires Apart(chain, chains)
      requires chain.Holds(p) && chain.next == null
      requires Contents() != [] ==> p != []
      modifies this, last
      ensures Valid()
      ensures Contents() == old(Contents()) + p
      ensures chains == (if old(Contents()) == [] then [chain] else old(chains) + [chain])
      ensures pieces == (if old(Contents()) == [] then [p] else old(pieces) + [p])
      ensures freezeStart == old(freezeStart) && freezeEnd == old(freezeEnd)
    {
      FlattenPush(pieces, p);
      FlattenOne(p);
      PackedEmpty(pieces);
      hide Flatten, Separate;
      if LastWithData() == null {
        InsertAlone(chain, p);
        return;
      }
      // walk from *last_with_datap to the first empty chain, if any
      var ch := LastWithData();
      assert ch == last == chains[|chains| - 1] && ch.Holds(pieces[|pieces| - 1]) && ch.next == null;
      while ch != null && ch.off != 0
        invariant ch == last || (ch == null && last.off != 0)
        decreases ch != null
      {
        ch := ch.next;
      }
      if ch == null {
        HasBytes();
        PackedPush(p);
        LinkBehind(chain, p);
      } else {
        assert pieces[|pieces| - 1] in pieces;
        // every chain from here on is empty, and the strong invariant leaves just this one
        InsertAlone(chain, p);
      }
    }

    /** `memcpy` behind the data of the last chain. */
    method GrowLast(data: seq<Byte>)
      requires Valid() && last != null && last.misalign + last.off + |data| <= last.buffer.Length
      modifies this`totalLen, this`pieces, last`off, last.buffer
      ensures Valid()
      ensures Contents() == old(Contents()) + data
      ensures chains != [] && pieces == old(pieces)[|chains| - 1 := old(pieces)[|chains| - 1] + data]
    {
      hide Flatten, Packed, Separate, Linked, Chain.Holds;
      ghost var chains', pieces' := chains, pieces;
      ghost var n := |chains'| - 1;
      FlattenGrowLast(pieces', data);
      SeparateAt(chains', n);
      PackedGrow(pieces', n, data);
      last.Put(data, pieces'[n]);
      totalLen := totalLen + |data|;
      pieces := pieces'[n := pieces'[n] + data];
      HeldUpdate(chains', pieces', n, pieces'[n] + data);
    }

    lemma LastInBounds()
      requires Valid()
      ensures last != null ==> last.misalign + last.off <= last.buffer.Length
      ensures last != null <==> chains != []
      ensures last == null ==> Contents() == []
      ensures |pieces| == |chains|
    {
    }

    /** `evbuffer_add`. */
    method Add(data: seq<Byte>) returns (result: int)
      requires Valid()
      modifies this, last, if last == null then {} else {last.buffer}
      ensures Valid()
      ensures result == if old(freezeEnd) then -1 else 0
      ensures Contents() == old(Contents()) + if result == 0 then data else []
      ensures freezeStart == old(freezeStart) && freezeEnd == old(freezeEnd)
      ensures forall c :: c in chains ==> c in old(chains) || (fresh(c) && fresh(c.buffer))
      ensures result == 0 ==> chains != []
    {
      hide Flatten, Separate, Held, Linked, Packed, Chain.Holds;
      ghost var contents := Contents();
      if freezeEnd {
        assert contents + [] == contents;
        return -1;
      }
      LastInBounds();
      if last == null {
        var chain := NewChain(|data|, []);
        ChainInsert(chain, []);
        assert contents + [] == contents;
      }
      var chain := last;
      LastInBounds();
      var remain := chain.buffer.Length - chain.misalign - chain.off;
      if remain >= |data| {
        GrowLast(data);
        return 0;
      }
      if chain.ShouldRealign(|data|) {
        AlignLast();
        GrowLast(data);
        return 0;
      }
      Spill(data, remain);
      return 0;
    }

    /** The end of `evbuffer_add`: fill up the last chain and put the rest into a new one. */
    method Spill(data: seq<Byte>, remain: nat)
      requires Valid() && last != null
      requires last.misalign + last.off + remain == last.buffer.Length && remain < |data|
      modifies this, last, last.buffer
      ensures Valid() && chains != []
      ensures Contents() == old(Contents()) + data
      ensures freezeStart == old(freezeStart) && freezeEnd == old(freezeEnd)
      ensures forall c :: c in chains ==> c in old(chains) || (fresh(c) && fresh(c.buffer))
    {
      hide Flatten, Separate, Held, Linked, Packed, Chain.Holds;
      ghost var contents := Contents();
      var toAlloc := last.buffer.Length;
      if toAlloc <= CHAIN_MAX_AUTO_SIZE / 2 { toAlloc := toAlloc * 2; }
      if |data| > toAlloc { toAlloc := |data|; }
      var front, back := data[..remain], data[remain..];
      assert data == front + back;
      var tmp := NewChain(toAlloc, back);
      if remain > 0 {
        GrowLast(front);
      } else {
        assert contents + front == contents;
      }
      ChainInsert(tmp, back);
      assert contents + front + back == contents + data;
    }

    method AlignLast()
      requires Valid() && last != null
      modifies last`misalign, last.buffer
      ensures Valid() && last.misalign == 0
    {
      hide Flatten, Packed, Separate, Linked, Chain.Holds;
      ghost var n := |chains| - 1;
      SeparateAt(chains, n);
      last.Align(pieces[n]);
      HeldUpdate(chains, pieces, n, pieces[n]);
      assert pieces[n := pieces[n]] == pieces;
    }

    /** `memcpy` in front of the data of the first chain. */
    method GrowFirst(data: seq<Byte>)
      requires Valid() && first != null && |data| <= first.misalign
      modifies this`totalLen, this`pieces, first`off, first`misalign, first.buffer
      ensures Valid()
      ensures Contents() == data + old(Contents())
      ensures chains != [] && pieces == old(pieces)[0 := data + old(pieces)[0]]
      ensures first.misalign == old(first.misalign) - |data|
    {
      hide Flatten, Packed, Separate, Linked, Chain.Holds;
      ghost var chains', pieces' := chains, pieces;
      FlattenFirst(pieces', data + pieces'[0]);
      SeparateAt(chains', 0);
      PackedGrowFront(pieces', data);
      first.PutFront(data, pieces'[0]);
      totalLen := totalLen + |data|;
      pieces := pieces'[0 := data + pieces'[0]];
      HeldUpdate(chains', pieces', 0, data + pieces'[0]);
    }

    /** `tmp->next = buf->first` and so on. */
    method LinkFront(tmp: Chain, ghost p: seq<Byte>)
      requires Valid() && chains != [] && pieces != [] && pieces[0] != [] && p != []
      requires Apart(tmp, chains) && tmp.Holds(p) && tmp.next == null
      modifies this, tmp`next
      ensures Valid() && chains == [tmp] + old(chains) && Contents() == p + old(Contents())
      ensures freezeStart == old(freezeStart) && freezeEnd == old(freezeEnd)
    {
      hide Flatten, Packed, Separate, Linked, Held, Chain.Holds;
      ghost var chains', pieces' := chains, pieces;
      LastInBounds();
      FlattenFirst(pieces', p);
      SeparateFront(chains', tmp);
      PackedFront(pieces', p);
      HoldsLength(tmp, p);
      var chain := first;
      first := tmp;
      if lastWithDataPrev == null { lastWithDataPrev := tmp; }
      assert Linked([tmp]) by { LinkedOne(tmp); }
      SeparateOne(tmp);
      LinkLast([tmp], tmp, chain, chains');
      totalLen := totalLen + tmp.off;
      chains, pieces := [tmp] + chains', [p] + pieces';
      HeldFront(chains', pieces', tmp, p);
    }

    /** `evbuffer_prepend`. */
    method Prepend(data: seq<Byte>) returns (result: int)
      requires Valid()
      modifies this, first, if first == null then {} else {first.buffer}
      ensures Valid()
      ensures result == if old(freezeStart) then -1 else 0
      ensures Contents() == (if result == 0 then data else []) + old(Contents())
      ensures freezeStart == old(freezeStart) && freezeEnd == old(freezeEnd)
      ensures forall c :: c in chains ==> c in old(chains) || (fresh(c) && fresh(c.buffer))
    {
      hide Flatten, Separate, Held, Linked, Packed, Chain.Holds;
      ghost var contents := Contents();
      if freezeStart {
        assert [] + contents == contents;
        return -1;
      }
      LastInBounds();
      if first == null {
        var chain := NewChain(|data|, []);
        ChainInsert(chain, []);
        assert contents + [] == contents;
      }
      EmptyAtTheBeginning();
      LastInBounds();
      if first.misalign >= |data| {
        GrowFirst(data);
        return 0;
      }
      PrependSpill(data);
      return 0;
    }

    /** The end of `evbuffer_prepend`: fill the misalignment and put the rest into a new first chain. */
    method PrependSpill(data: seq<Byte>)
      requires Valid() && first != null && first.misalign < |data| && pieces != []
      requires first.misalign == 0 ==> pieces[0] != []
      modifies this, first, first.buffer
      ensures Valid()
      ensures Contents() == data + old(Contents())
      ensures freezeStart == old(freezeStart) && freezeEnd == old(freezeEnd)
      ensures forall c :: c in chains ==> c in old(chains) || (fresh(c) && fresh(c.buffer))
    {
      hide Flatten, Separate, Held, Linked, Packed, Chain.Holds;
      ghost var contents := Contents();
      var front, back := data[..|data| - first.misalign], data[|data| - first.misalign..];
      assert data == front + back;
      if first.misalign > 0 {
        GrowFirst(back);
      } else {
        assert back + contents == contents;
      }
      LastInBounds();
      var tmp := NewFrontChain(front);
      LinkFront(tmp, front);
      assert front + (back + contents) == data + contents;
    }

    /** An empty chain counts as empty at the beginning, not at the end. */
    method EmptyAtTheBeginning()
      requires Valid() && first != null
      modifies first`misalign
      ensures Valid() && (first.misalign == 0 ==> pieces[0] != [])
    {
      hide Flatten, Packed, Separate, Linked;
      if first.off == 0 {
        first.misalign := first.buffer.Length;
        SeparateAt(chains, 0);
        assert forall i :: 0 <= i < |chains| && i != 0 ==> chains[i].Holds(pieces[i]);
        assert chains[0].Holds(pieces[0]);
      }
    }

    /** `ZERO_CHAIN`. */
    method Zero()
      modifies this
      ensures Valid() && chains == [] && Contents() == []
      ensures freezeStart == old(freezeStart) && freezeEnd == old(freezeEnd)
    {
      first, last, lastWithDataPrev := null, null, null;
      totalLen := 0;
      chains, pieces := [], [];
    }

    /** `evbuffer_drain`. */
    method Drain(len: nat) returns (result: int)
      requires Valid()
      modifies this, chains
      ensures Valid()
      ensures result == if old(freezeStart) && old(Contents()) != [] then -1 else 0
      ensures Contents() == if result == -1 || old(Contents()) == [] then old(Contents())
                            else if len >= |old(Contents())| then [] else old(Contents())[len..]
      ensures freezeStart == old(freezeStart) && freezeEnd == old(freezeEnd)
      ensures forall i :: 0 <= i < |chains| ==> chains[i] in old(chains)
    {
      if totalLen == 0 { return 0; }
      if freezeStart { return -1; }
      if len >= totalLen {
        Zero();
      } else {
        DrainSome(len);
      }
      return 0;
    }

    /** The chain loop of `evbuffer_drain`: whole chains go; the bytes to drop end inside `chain`. */
    method WalkOff(len: nat) returns (chain: Chain, remaining: nat, ghost k: nat)
      requires Valid() && len < totalLen
      modifies this`lastWithDataPrev
      ensures k < |chains| == |pieces| && chain == chains[k]
      ensures |Flatten(pieces[..k])| + remaining == len && remaining < |pieces[k]|
      ensures lastWithDataPrev == if k + 1 < |chains| then chains[|chains| - 2] else null
    {
      hide Flatten, Separate, Held, Linked, Packed, Chain.Holds;
      LastInBounds();
      k := 0;
      ghost var gone: nat := 0;
      FlattenNone();
      assert pieces[..0] == [];
      remaining := len;
      chain := first;
      WalkBytes(chains, pieces, 0, 0, remaining);
      while remaining >= chain.off
        invariant k < |chains| == |pieces| && chain == chains[k] && chain.off == |pieces[k]|
        invariant gone == |Flatten(pieces[..k])| && gone + remaining == len
        invariant lastWithDataPrev == if k + 1 < |chains| then chains[|chains| - 2] else null
        decreases |chains| - k
      {
        WalkBytes(chains, pieces, k, gone, remaining);
        LastLink(chains);
        Different(chains, k, |chains| - 1);
        Different(chains, k, |chains| - 2);
        var next := chain.next;
        remaining := remaining - chain.off;
        // the code resets last_with_datap if this is the last chain with data, which is never dropped whole here
        if chain == LastWithData() { assert false; }
        if chain == lastWithDataPrev { lastWithDataPrev := null; }
        gone := gone + |pieces[k]|;
        chain := next;
        k := k + 1;
        WalkBytes(chains, pieces, k, gone, remaining);
      }
    }

    /** The draining of less than everything. */
    method DrainSome(len: nat)
      requires Valid() && len < totalLen
      modifies this, chains
      ensures Valid()
      ensures Contents() == old(Contents())[len..]
      ensures freezeStart == old(freezeStart) && freezeEnd == old(freezeEnd)
      ensures forall i :: 0 <= i < |chains| ==> chains[i] in old(chains)
    {
      hide Flatten, Separate, Held, Linked, Packed, Chain.Holds;
      ghost var contents := Contents();
      var chain, remaining;
      ghost var k;
      chain, remaining, k := WalkOff(len);
      ghost var rest, restPieces := chains[k..], pieces[k..];
      FlattenSplit(pieces, k);
      DropMore(Flatten(pieces[..k]), Flatten(restPieces), remaining);
      Suffix(chains, pieces, k);
      totalLen := totalLen - len;
      first := chain;
      CutFirst(rest, restPieces, remaining);
    }

    /** The last part of a drain: what is left is the list `rest`, and bytes leave its first chain. */
    method CutFirst(ghost rest: seq<Chain>, ghost restPieces: seq<seq<Byte>>, n: nat)
      requires Separate(rest) && Linked(rest) && Held(rest, restPieces) && Packed(restPieces)
      requires rest != [] && |restPieces| == |rest| && n < |restPieces[0]|
      requires first == rest[0] && last == rest[|rest| - 1]
      requires lastWithDataPrev == if |rest| >= 2 then rest[|rest| - 2] else null
      requires totalLen == |Flatten(restPieces)| - n
      modifies this`chains, this`pieces, first`misalign, first`off
      ensures Valid()
      ensures chains == rest
      ensures n <= |Flatten(restPieces)| && Contents() == Flatten(restPieces)[n..]
    {
      hide Flatten, Separate, Held, Linked, Packed, Chain.Holds;
      ghost var cut := restPieces[0 := restPieces[0][n..]];
      FlattenFirst(restPieces, restPieces[0][n..]);
      PackedCut(restPieces, n);
      HeldAt(rest, restPieces, 0);
      SeparateAt(rest, 0);
      first.Skip(n, restPieces[0]);
      chains, pieces := rest, cut;
      HeldUpdate(rest, restPieces, 0, restPieces[0][n..]);
    }

    /** `evbuffer_copyout`: up to `datlen` bytes from the front, nothing removed; -1 while the front is frozen. */
    method Copyout(datlen: nat) returns (result: int, data: seq<Byte>)
      requires Valid()
      ensures result == if datlen == 0 || Contents() == [] then 0 else if freezeStart then -1
                        else if datlen >= |Contents()| then |Contents()| else datlen
      ensures data == if result > 0 then Contents()[..result] else []
    {
      var left := if datlen >= totalLen then totalLen else datlen;
      if left == 0 { return 0, []; }
      if freezeStart { return -1, []; }
      data := CopyBytes(left);
      return left, data;
    }

    /** The chain loop of `evbuffer_copyout`. */
    method CopyBytes(nread: nat) returns (data: seq<Byte>)
      requires Valid() && 0 < nread <= totalLen
      ensures data == Contents()[..nread]
    {
      hide Flatten, Separate, Held, Linked, Packed, Chain.Holds;
      LastInBounds();
      ghost var k: nat := 0;
      FlattenNone();
      assert pieces[..0] == [];
      var datlen: nat := nread;
      data := [];
      var chain := first;
      while datlen > 0 && datlen >= chain.off
        invariant k <= |chains| == |pieces|
        invariant data == Flatten(pieces[..k]) && |data| + datlen == nread
        invariant if k < |chains| then chain == chains[k] else datlen == 0
        decreases |chains| - k
      {
        CopyStep(chains, pieces, k);
        HeldAt(chains, pieces, k);
        var more := chain.Get(chain.off, pieces[k]);
        assert more == pieces[k];
        data := data + more;
        datlen := datlen - chain.off;
        chain := chain.next;
        k := k + 1;
        if k == |chains| { assert pieces[..k] == pieces; }
      }
      if datlen > 0 {
        HeldAt(chains, pieces, k);
        FlattenCut(pieces, k, datlen, [pieces[k][datlen..]] + pieces[k + 1..]);
        var more := chain.Get(datlen, pieces[k]);
        data := data + more;
        assert Contents()[..nread] == data;
      } else {
        FlattenSplit(pieces, k);
        assert Contents()[..nread] == data;
      }
    }

    /** `evbuffer_remove`. */
    method Remove(datlen: nat) returns (result: int, data: seq<Byte>)
      requires Valid()
      modifies this, chains
      ensures Valid()
      ensures result == if datlen == 0 || old(Contents()) == [] then 0 else if old(freezeStart) then -1
                        else if datlen >= |old(Contents())| then |old(Contents())| else datlen
      ensures data + Contents() == old(Contents())
      ensures |data| == if result > 0 then result else 0
      ensures freezeStart == old(freezeStart) && freezeEnd == old(freezeEnd)
      ensures forall i :: 0 <= i < |chains| ==> chains[i] in old(chains)
    {
      ghost var contents := Contents();
      result, data := Copyout(datlen);
      if result > 0 {
        var r := Drain(result);
        if r < 0 { result := -1; }
        assert contents[..|data|] + contents[|data|..] == contents;
      } else {
        assert [] + contents == contents;
      }
    }
  }
}

/** Searching an evbuffer across its chains, and reading lines from it. */
module EvbufferSearch {
  import opened Bytes
  import opened Wrappers
  import opened Pieces
  import opened Evbuffer

  const CR: Byte := 13
  const LF: Byte := 10

  /** `struct evbuffer_ptr`. */
  datatype Ptr = Ptr(pos: int, chain: Chain?, posInChain: nat)

  /** `it` stands in chain `k`, perhaps just behind its last byte. */
  ghost predicate At(buf: EvBuffer, it: Ptr, k: nat)
    reads buf
  {
    && k < |buf.chains| == |buf.pieces|
    && it.chain == buf.chains[k]
    && it.posInChain <= |buf.pieces[k]|
    && it.pos == |Flatten(buf.pieces[..k])| + it.posInChain
  }

  /** `it` stands at byte `it.pos` of the contents. */
  ghost predicate OnByte(buf: EvBuffer, it: Ptr, k: nat)
    reads buf
  {
    At(buf, it, k) && it.posInChain < |buf.pieces[k]|
  }

  /** A byte of the contents in terms of the chain it lies in. */
  lemma ByteOf(pieces: seq<seq<Byte>>, k: nat, i: nat)
    requires k < |pieces| && i < |pieces[k]|
    ensures |Flatten(pieces[..k])| + i < |Flatten(pieces)|
    ensures Flatten(pieces)[|Flatten(pieces[..k])| + i] == pieces[k][i]
  {
    hide Flatten;
    FlattenAt(pieces, k);
  }

  /** The next chain and where it starts. */
  lemma NextChain(buf: EvBuffer, k: nat)
    requires buf.Valid() && k < |buf.chains|
    ensures |buf.pieces| == |buf.chains| && buf.chains[k].off == |buf.pieces[k]| && buf.chains[k].Holds(buf.pieces[k])
    ensures buf.chains[k].next == if k + 1 < |buf.chains| then buf.chains[k + 1] else null
    ensures |Flatten(buf.pieces[..k + 1])| == |Flatten(buf.pieces[..k])| + |buf.pieces[k]|
    ensures |Flatten(buf.pieces[..k + 1])| <= |buf.Contents()| == buf.totalLen
    ensures k + 1 == |buf.chains| ==> |Flatten(buf.pieces[..k + 1])| == |buf.Contents()|
  {
    hide Separate, Flatten, Packed;
    FlattenAt(buf.pieces, k);
    FlattenNone();
    if k + 1 == |buf.chains| { assert buf.pieces[k + 1..] == []; }
  }

  /** `memchr` over bytes `i` and on of a chain's data: the first `c`, or -1. */
  method Memchr(chain: Chain, i: nat, n: nat, c: Byte, ghost p: seq<Byte>) returns (r: int)
    requires chain.Holds(p) && i + n <= |p|
    ensures r == -1 || i <= r < i + n
    ensures r >= 0 ==> p[r] == c && forall j :: i <= j < r ==> p[j] != c
    ensures r == -1 ==> forall j :: i <= j < i + n ==> p[j] != c
  {
    var j := i;
    while j < i + n
      invariant i <= j <= i + n
      invariant forall l :: i <= l < j ==> p[l] != c
    {
      if chain.buffer[chain.misalign + j] == c { return j; }
      j := j + 1;
    }
    return -1;
  }

  /** `what` occurs at `i`. */
  ghost predicate Match(b: seq<Byte>, what: seq<Byte>, i: int) {
    0 <= i && i + |what| <= |b| && b[i..i + |what|] == what
  }

  /** `evbuffer_ptr_memcmp`, as far as equality goes. */
  method PtrMemcmp(buf: EvBuffer, it: Ptr, what: seq<Byte>, ghost k: nat) returns (equal: bool)
    requires buf.Valid() && At(buf, it, k)
    ensures equal <==> Match(buf.Contents(), what, it.pos)
  {
    hide Flatten, Separate, Held, Linked, Packed, Chain.Holds;
    if it.pos + |what| > buf.totalLen {
      LengthIs(buf);
      return false;
    }
    LengthIs(buf);
    ghost var b, start := buf.Contents(), it.pos;
    ghost var k' := k;
    var chain := it.chain;
    var position: nat := it.posInChain;
    var done: nat := 0;
    while done < |what| && chain != null
      invariant done <= |what|
      invariant done < |what| ==> At(buf, Ptr(start + done, chain, position), k')
      invariant b[start..start + done] == what[..done]
      decreases |buf.chains| - k'
    {
      NextChain(buf, k');
      var left := |what| - done;
      var comparable := if left + position > chain.off then chain.off - position else left;
      SliceOf(buf.pieces, k', position, comparable);
      var same := Memcmp(chain, position, what, done, comparable, buf.pieces[k']);
      Extend(b, start, what, done, comparable);
      if !same { return false; }
      done := done + comparable;
      position := 0;
      chain := chain.next;
      k' := k' + 1;
    }
    assert what[..done] == what;
    return true;
  }

  lemma SliceOf(pieces: seq<seq<Byte>>, k: nat, i: nat, n: nat)
    requires k < |pieces| && i + n <= |pieces[k]|
    ensures |Flatten(pieces[..k])| + i + n <= |Flatten(pieces)|
    ensures Flatten(pieces)[|Flatten(pieces[..k])| + i..|Flatten(pieces[..k])| + i + n] == pieces[k][i..i + n]
  {
    hide Flatten;
    FlattenAt(pieces, k);
  }

  lemma Inside(b: seq<Byte>, start: nat, len: nat, i: nat, n: nat)
    requires start + len <= |b| && i + n <= len
    ensures b[start..start + len][i..i + n] == b[start + i..start + i + n]
  {
    var x, y := b[start..start + len][i..i + n], b[start + i..start + i + n];
    assert |x| == |y|;
    forall j | 0 <= j < n ensures x[j] == y[j] {}
  }

  lemma OneMore(b: seq<Byte>, i: nat, j: nat)
    requires i <= j < |b|
    ensures b[i..j + 1] == b[i..j] + [b[j]]
  {
  }

  lemma Extend(b: seq<Byte>, start: nat, what: seq<Byte>, done: nat, n: nat)
    requires done + n <= |what| && start + |what| <= |b| && b[start..start + done] == what[..done]
    ensures b[start + done..start + done + n] == what[done..done + n] ==>
              b[start..start + (done + n)] == what[..done + n]
    ensures b[start + done..start + done + n] != what[done..done + n] ==> !Match(b, what, start)
  {
    var m := b[start..start + |what|];
    Inside(b, start, |what|, done, n);
    assert b[start..start + (done + n)] == b[start..start + done] + b[start + done..start + done + n];
    assert what[..done + n] == what[..done] + what[done..done + n];
  }

  /** `memcmp` of `n` bytes of a chain with `n` bytes of `what`, as far as equality goes. */
  method Memcmp(chain: Chain, position: nat, what: seq<Byte>, done: nat, n: nat, ghost p: seq<Byte>)
    returns (same: bool)
    requires chain.Holds(p) && position + n <= |p| && done + n <= |what|
    ensures same <==> p[position..position + n] == what[done..done + n]
  {
    var i := 0;
    while i < n
      invariant 0 <= i <= n
      invariant p[position..position + i] == what[done..done + i]
    {
      if chain.buffer[chain.misalign + position + i] != what[done + i] {
        assert p[position..position + n][i] == p[position + i] && what[done..done + n][i] == what[done + i];
        return false;
      }
      OneMore(p, position, position + i);
      OneMore(what, done, done + i);
      i := i + 1;
    }
    return true;
  }

  lemma LengthIs(buf: EvBuffer)
    requires buf.Valid()
    ensures buf.totalLen == |buf.Contents()|
  {
  }

  /** Where a search starts, and with what pointer when none is given. */
  function StartOf(buf: EvBuffer, start: Option<Ptr>): Ptr
    reads buf
  {
    if start.Some? then start.value else Ptr(0, buf.first, 0)
  }

  /** The first occurrence at or after `s`, if it ends by `e`; otherwise -1, and then none ends by `e`. */
  ghost predicate Found(b: seq<Byte>, what: seq<Byte>, s: int, e: int, r: int) {
    if r == -1 then forall i :: s <= i && Match(b, what, i) ==> i + |what| > e
    else s <= r && Match(b, what, r) && r + |what| <= e && forall i :: s <= i < r ==> !Match(b, what, i)
  }

  ghost predicate Passed(b: seq<Byte>, what: seq<Byte>, s: int, pos: int) {
    forall i :: s <= i < pos ==> !Match(b, what, i)
  }

  lemma FirstMatches(b: seq<Byte>, what: seq<Byte>, l: nat)
    ensures Match(b, what, l) && what != [] ==> b[l] == what[0]
  {
    if Match(b, what, l) && what != [] { assert b[l..l + |what|][0] == b[l]; }
  }

  /** Bytes other than the first of `what` start no occurrence. */
  lemma PassBytes(buf: EvBuffer, what: seq<Byte>, s: int, k: nat, i: nat, j: nat)
    requires k < |buf.pieces| && i <= j <= |buf.pieces[k]| && what != []
    requires Passed(buf.Contents(), what, s, |Flatten(buf.pieces[..k])| + i)
    requires forall l :: i <= l < j ==> buf.pieces[k][l] != what[0]
    ensures Passed(buf.Contents(), what, s, |Flatten(buf.pieces[..k])| + j)
  {
    hide Flatten;
    var b, base := buf.Contents(), |Flatten(buf.pieces[..k])|;
    forall l | s <= l < base + j ensures !Match(b, what, l) {
      if l >= base + i {
        ByteOf(buf.pieces, k, l - base);
        FirstMatches(b, what, l);
      }
    }
  }

  lemma PassOne(b: seq<Byte>, what: seq<Byte>, s: int, pos: int)
    requires Passed(b, what, s, pos) && !Match(b, what, pos)
    ensures Passed(b, what, s, pos + 1)
  {
  }

  /** No occurrence ends by `e` if none starts before `pos` and `pos` is not before `e`. */
  lemma PassedEnd(b: seq<Byte>, what: seq<Byte>, s: int, pos: int, e: int)
    requires Passed(b, what, s, pos) && what != [] && (pos >= e || pos >= |b|)
    ensures Found(b, what, s, e, -1)
  {
  }

  lemma EndInChain(buf: EvBuffer, end: Ptr, k: nat, k': nat)
    requires buf.Valid() && k < |buf.chains| && end.chain == buf.chains[k] && At(buf, end, k')
    ensures |buf.pieces| == |buf.chains| && end.pos <= |Flatten(buf.pieces[..k + 1])|
  {
    hide Flatten, Separate, Held;
    Different(buf.chains, k, k');
    FlattenAt(buf.pieces, k);
  }

  /** `evbuffer_search_range` (and `evbuffer_search`, which has no end). */
  method SearchRange(buf: EvBuffer, what: seq<Byte>, start: Option<Ptr>, end: Option<Ptr>)
    returns (r: Ptr, ghost kr: nat)
    requires buf.Valid()
    requires start.Some? ==> exists k :: At(buf, start.value, k)
    requires end.Some? ==> (exists k :: At(buf, end.value, k)) || (end.value.chain == null && end.value.pos == -1)
    ensures what == [] ==> r == StartOf(buf, start)
    ensures what != [] ==>
              && Found(buf.Contents(), what, StartOf(buf, start).pos,
                       if end.Some? then end.value.pos else |buf.Contents()|, r.pos)
              && (r.pos == -1 || OnByte(buf, r, kr))
  {
    hide Flatten, Separate, Held, Linked, Packed, Chain.Holds, Match, Found, Passed;
    kr := 0;
    r := StartOf(buf, start);
    if what == [] { return; }
    ghost var b, s, e := buf.Contents(), r.pos, if end.Some? then end.value.pos else |buf.Contents()|;
    LengthIs(buf);
    buf.LastInBounds();
    if start.None? { StartAt(buf, start); }
    if start.Some? { kr :| At(buf, start.value, kr); }
    var lastChain := if end.Some? then end.value.chain else null;
    ghost var ke: nat := 0;
    if lastChain != null { ke :| At(buf, end.value, ke); }
    NothingPassed(b, what, s);
    while r.chain != null
      invariant Searching(buf, r, kr)
      invariant Passed(b, what, s, r.pos) && r.pos >= s
      decreases |buf.chains| - kr, |b| - r.pos
    {
      var done;
      done, r, kr := SearchStep(buf, what, r, end, lastChain, s, kr, ke);
      if done { return; }
    }
    PassedEnd(b, what, s, r.pos, e);
    return Ptr(-1, null, 0), kr;
  }

  /** Where a search stands: in a chain, or behind the last one. */
  ghost predicate Searching(buf: EvBuffer, r: Ptr, k: nat)
    reads buf
  {
    && k <= |buf.chains|
    && (r.chain != null ==> At(buf, r, k))
    && (r.chain == null ==> r.pos >= |buf.Contents()|)
  }

  /** One turn of the search loop: the answer, or some bytes passed. */
  method SearchStep(buf: EvBuffer, what: seq<Byte>, it: Ptr, end: Option<Ptr>, lastChain: Chain?, ghost s: int,
                    ghost k: nat, ghost ke: nat)
    returns (done: bool, r: Ptr, ghost kr: nat)
    requires buf.Valid() && what != [] && At(buf, it, k)
    requires Passed(buf.Contents(), what, s, it.pos) && s <= it.pos
    requires lastChain == if end.Some? then end.value.chain else null
    requires lastChain != null ==> At(buf, end.value, ke)
    ensures done ==>
              && Found(buf.Contents(), what, s, if end.Some? then end.value.pos else |buf.Contents()|, r.pos)
              && (r.pos == -1 || OnByte(buf, r, kr))
    ensures !done ==> Searching(buf, r, kr) && Passed(buf.Contents(), what, s, r.pos) && r.pos >= s
    ensures !done ==> kr == k + 1 || (kr == k && it.pos < r.pos <= |buf.Contents()|)
  {
    hide Flatten, Separate, Held, Linked, Packed, Chain.Holds, Match, Found, Passed;
    ghost var b, e := buf.Contents(), if end.Some? then end.value.pos else |buf.Contents()|;
    r, kr := it, k;
    NextChain(buf, kr);
    var p := Memchr(r.chain, r.posInChain, r.chain.off - r.posInChain, what[0], buf.pieces[kr]);
    if p >= 0 {
      PassBytes(buf, what, s, kr, r.posInChain, p);
      ByteOf(buf.pieces, kr, p);
      r := Ptr(r.pos + (p - r.posInChain), r.chain, p);
      var equal := PtrMemcmp(buf, r, what, kr);
      if equal {
        FoundHere(b, what, s, r.pos, e);
        if end.Some? && r.pos + |what| > end.value.pos { return true, Ptr(-1, null, 0), kr; }
        return true, r, kr;
      }
      PassOne(b, what, s, r.pos);
      r, kr := Advance(buf, r, kr);
    } else {
      PassBytes(buf, what, s, kr, r.posInChain, |buf.pieces[kr]|);
      if r.chain == lastChain {
        EndInChain(buf, end.value, kr, ke);
        PassedEnd(b, what, s, |Flatten(buf.pieces[..kr])| + |buf.pieces[kr]|, e);
        return true, Ptr(-1, null, 0), kr;
      }
      r := Ptr(r.pos + (r.chain.off - r.posInChain), r.chain.next, 0);
      kr := kr + 1;
    }
    return false, r, kr;
  }

  /** One byte further, into the next chain at the end of this one. */
  method Advance(buf: EvBuffer, it: Ptr, ghost k: nat) returns (r: Ptr, ghost kr: nat)
    requires buf.Valid() && OnByte(buf, it, k)
    ensures r.pos == it.pos + 1
    ensures r.chain != null ==> At(buf, r, kr)
    ensures r.chain == null ==> r.pos == |buf.Contents()|
    ensures kr == k || kr == k + 1
    ensures kr <= |buf.chains|
  {
    hide Flatten, Separate, Held, Linked, Packed, Chain.Holds;
    NextChain(buf, k);
    r, kr := Ptr(it.pos + 1, it.chain, it.posInChain + 1), k;
    if r.posInChain == it.chain.off {
      r, kr := Ptr(r.pos, it.chain.next, 0), k + 1;
    }
  }

  lemma StartAt(buf: EvBuffer, start: Option<Ptr>)
    requires buf.Valid() && start.None?
    ensures buf.first != null ==> At(buf, StartOf(buf, start), 0)
    ensures buf.first == null ==> buf.Contents() == []
  {
    FlattenNone();
  }

  lemma NothingPassed(b: seq<Byte>, what: seq<Byte>, s: int)
    ensures Passed(b, what, s, s)
  {
  }

  lemma FoundHere(b: seq<Byte>, what: seq<Byte>, s: int, r: int, e: int)
    requires Passed(b, what, s, r) && s <= r && Match(b, what, r)
    ensures r + |what| <= |b|
    ensures Found(b, what, s, e, if r + |what| <= e then r else -1)
  {
  }
}

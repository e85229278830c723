/** Line reading from an evbuffer: `evbuffer_search_eol` and `evbuffer_readln`. */
module EvbufferLines {
  import opened Bytes
  import opened Wrappers
  import opened Pieces
  import opened Evbuffer
  import opened EvbufferSearch

  const CHUNK_SZ := 128

  /** The first byte at or after `s` that is in `stop`, or -1. */
  ghost predicate FirstOf(b: seq<Byte>, stop: set<Byte>, s: int, r: int) {
    if r == -1 then forall i :: 0 <= i < |b| && s <= i ==> b[i] !in stop
    else 0 <= r < |b| && s <= r && b[r] in stop && forall i :: 0 <= i < |b| && s <= i < r ==> b[i] !in stop
  }

  ghost predicate NoneOf(b: seq<Byte>, stop: set<Byte>, s: int, pos: int) {
    forall i :: 0 <= i < |b| && s <= i < pos ==> b[i] !in stop
  }

  /** `find_eol_char` on a chain's data: chunk by chunk, one search for each of the two bytes. */
  method FindEolIn(chain: Chain, i: nat, ghost p: seq<Byte>) returns (r: int)
    requires chain.Holds(p) && i <= |p|
    ensures FirstOf(p, {CR, LF}, i, r)
  {
    hide Chain.Holds;
    HoldsLength(chain, p);
    var s := i;
    while s < chain.off
      invariant i <= s
      invariant NoneOf(p, {CR, LF}, i, s)
    {
      var chunk := if s + CHUNK_SZ < chain.off then CHUNK_SZ else chain.off - s;
      var cr := Memchr(chain, s, chunk, CR, p);
      var lf := Memchr(chain, s, chunk, LF, p);
      if cr >= 0 {
        if lf >= 0 && lf < cr { return lf; }
        return cr;
      } else if lf >= 0 {
        return lf;
      }
      s := s + CHUNK_SZ;
    }
    return -1;
  }

  lemma PassStop(buf: EvBuffer, stop: set<Byte>, s: int, k: nat, i: nat, j: nat)
    requires k < |buf.pieces| && i <= j <= |buf.pieces[k]|
    requires NoneOf(buf.Contents(), stop, s, |Flatten(buf.pieces[..k])| + i)
    requires NoneOf(buf.pieces[k], stop, i, j)
    ensures NoneOf(buf.Contents(), stop, s, |Flatten(buf.pieces[..k])| + j)
  {
    hide Flatten;
    var b, base := buf.Contents(), |Flatten(buf.pieces[..k])|;
    forall l | 0 <= l < |b| && s <= l < base + j ensures b[l] !in stop {
      if l >= base + i { ByteOf(buf.pieces, k, l - base); }
    }
  }

  lemma StopFound(b: seq<Byte>, stop: set<Byte>, s: int, pos: int)
    requires NoneOf(b, stop, s, pos) && s <= pos
    ensures 0 <= pos < |b| && b[pos] in stop ==> FirstOf(b, stop, s, pos)
    ensures pos >= |b| ==> FirstOf(b, stop, s, -1)
  {
  }

  /** `evbuffer_find_eol_char` (`chr` absent) and `evbuffer_strchr`: on to the next stop byte. */
  method FindStop(buf: EvBuffer, it: Ptr, chr: Option<Byte>, ghost k: nat) returns (r: Ptr, ghost kr: nat)
    requires buf.Valid() && it.pos >= 0
    requires Searching(buf, it, k)
    ensures FirstOf(buf.Contents(), if chr.None? then {CR, LF} else {chr.value}, it.pos, r.pos)
    ensures r.pos == -1 || OnByte(buf, r, kr)
  {
    hide Flatten, Separate, Held, Linked, Packed, Chain.Holds, FirstOf, NoneOf;
    ghost var b, s, stop := buf.Contents(), it.pos, if chr.None? then {CR, LF} else {chr.value};
    r, kr := it, k;
    NoStopYet(b, stop, s);
    while r.chain != null
      invariant Searching(buf, r, kr)
      invariant NoneOf(b, stop, s, r.pos) && r.pos >= s
      decreases |buf.chains| - kr, r.chain != null
    {
      NextChain(buf, kr);
      var p;
      if chr.None? {
        p := FindEolIn(r.chain, r.posInChain, buf.pieces[kr]);
      } else {
        p := Memchr(r.chain, r.posInChain, r.chain.off - r.posInChain, chr.value, buf.pieces[kr]);
        MemchrIsFirst(buf.pieces[kr], chr.value, r.posInChain, p);
      }
      StopInPiece(buf.pieces[kr], stop, r.posInChain, p);
      PassStop(buf, stop, s, kr, r.posInChain, if p >= 0 then p else |buf.pieces[kr]|);
      if p >= 0 {
        ByteOf(buf.pieces, kr, p);
        r := Ptr(r.pos + (p - r.posInChain), r.chain, p);
        StopFound(b, stop, s, r.pos);
        return;
      }
      r := Ptr(r.pos + (r.chain.off - r.posInChain), r.chain.next, 0);
      kr := kr + 1;
    }
    StopFound(b, stop, s, r.pos);
    return Ptr(-1, null, 0), kr;
  }

  lemma NoStopYet(b: seq<Byte>, stop: set<Byte>, s: int)
    ensures NoneOf(b, stop, s, s)
  {
  }

  lemma MemchrIsFirst(p: seq<Byte>, c: Byte, i: nat, r: int)
    requires i <= |p| && (r == -1 || i <= r < |p|)
    requires r >= 0 ==> p[r] == c && forall j :: i <= j < r ==> p[j] != c
    requires r == -1 ==> forall j :: i <= j < |p| ==> p[j] != c
    ensures FirstOf(p, {c}, i, r)
  {
  }

  lemma StopInPiece(p: seq<Byte>, stop: set<Byte>, i: nat, r: int)
    requires FirstOf(p, stop, i, r)
    ensures r == -1 || (i <= r < |p| && p[r] in stop)
    ensures NoneOf(p, stop, i, if r >= 0 then r else |p|)
  {
  }

  /** Bytes `s` to `s + n` are all CR or LF, and no more follow. */
  ghost predicate EolRun(b: seq<Byte>, s: nat, n: nat) {
    && s + n <= |b|
    && (forall i :: s <= i < s + n ==> b[i] == CR || b[i] == LF)
    && (s + n < |b| ==> b[s + n] != CR && b[s + n] != LF)
  }

  /** `evbuffer_strspn` with the set "\\r\\n". */
  method StrSpn(buf: EvBuffer, it: Ptr, ghost k: nat) returns (count: nat)
    requires buf.Valid() && At(buf, it, k)
    ensures EolRun(buf.Contents(), it.pos, count)
  {
    hide Flatten, Separate, Held, Linked, Packed, Chain.Holds;
    ghost var b := buf.Contents();
    ghost var k' := k;
    var chain := it.chain;
    var i: nat := it.posInChain;
    count := 0;
    while true
      invariant At(buf, Ptr(it.pos + count, chain, i), k')
      invariant forall j :: it.pos <= j < it.pos + count ==> j < |b| && (b[j] == CR || b[j] == LF)
      decreases |buf.chains| - k'
    {
      NextChain(buf, k');
      ghost var count0, i0 := count, i;
      while i < chain.off
        invariant i0 <= i <= chain.off && count == count0 + (i - i0)
        invariant At(buf, Ptr(it.pos + count, chain, i), k')
        invariant forall j :: it.pos <= j < it.pos + count ==> j < |b| && (b[j] == CR || b[j] == LF)
      {
        ByteOf(buf.pieces, k', i);
        var c := ByteAt(chain, i, buf.pieces[k']);
        if c != CR && c != LF { return; }
        count := count + 1;
        i := i + 1;
      }
      if chain.next == null { return; }
      i := 0;
      chain := chain.next;
      k' := k' + 1;
    }
  }

  /** `evbuffer_getchr`. */
  method ByteAt(chain: Chain, i: nat, ghost p: seq<Byte>) returns (c: Byte)
    requires chain.Holds(p) && i < |p|
    ensures c == p[i]
  {
    c := chain.buffer[chain.misalign + i];
  }

  /** `evbuffer_ptr_set`: to byte `position` (from `it` when that is given). */
  method PtrSet(buf: EvBuffer, it: Option<Ptr>, position: nat, ghost k: nat) returns (ok: bool, r: Ptr, ghost kr: nat)
    requires buf.Valid() && (it.Some? ==> it.value.pos < 0 || At(buf, it.value, k))
    ensures var target := position + if it.Some? then it.value.pos else 0;
            ok <==> target < |buf.Contents()| && (it.Some? ==> it.value.pos >= 0)
    ensures ok ==> OnByte(buf, r, kr) && r.pos == position + if it.Some? then it.value.pos else 0
    ensures !ok ==> r.pos < 0
  {
    hide Flatten, Separate, Held, Linked, Packed, Chain.Holds;
    if it.Some? && it.value.pos < 0 { return false, it.value, k; }
    buf.LastInBounds();
    var left: nat := position;
    var target, chain, pos := position, buf.first, 0;
    kr := 0;
    FlattenNone();
    assert buf.pieces[..0] == [];
    if it.Some? {
      target, chain, pos := it.value.pos + position, it.value.chain, it.value.posInChain;
      kr := k;
    }
    while chain != null && pos + left >= chain.off
      invariant pos >= 0
      invariant chain != null ==>
                  kr < |buf.chains| == |buf.pieces| && chain == buf.chains[kr]
                  && |Flatten(buf.pieces[..kr])| + pos + left == target && pos <= |buf.pieces[kr]|
      invariant chain == null ==> target >= |buf.Contents()|
      decreases |buf.chains| - kr, chain != null
    {
      NextChain(buf, kr);
      left := left - (chain.off - pos);
      chain := chain.next;
      pos := 0;
      kr := kr + 1;
    }
    if chain != null {
      NextChain(buf, kr);
      return true, Ptr(target, chain, pos + left), kr;
    }
    return false, Ptr(-1, null, 0), kr;
  }

  /** `enum evbuffer_eol_style`. */
  datatype EolStyle = EolAny | EolCrlf | EolCrlfStrict | EolLf

  /** What it means that a line starting at `s` ends before `pos` with a terminator of `n` bytes, or (-1) that no
      terminator is there. EolAny: the first CR or LF, and all that follow it directly. EolLf: the first LF.
      EolCrlfStrict: the first CR LF. EolCrlf: the first LF, together with the CR right before it if there is one. */
  ghost predicate LineEnd(b: seq<Byte>, style: EolStyle, s: nat, pos: int, n: nat) {
    match style
    case EolAny => FirstOf(b, {CR, LF}, s, pos) && (pos >= 0 ==> n > 0 && EolRun(b, pos, n))
    case EolLf => FirstOf(b, {LF}, s, pos) && (pos >= 0 ==> n == 1)
    case EolCrlfStrict => Found(b, [CR, LF], s, |b|, pos) && (pos >= 0 ==> n == 2)
    case EolCrlf =>
      if pos == -1 then FirstOf(b, {LF}, s, -1)
      else
        && s <= pos && 1 <= n <= 2
        && FirstOf(b, {LF}, s, pos + n - 1)
        && (n == 2 <==> pos + n - 1 > s && b[pos + n - 2] == CR)
  }

  /** On the bytes of "a", CR (13), LF (10), LF, "b": where the first line ends in each style, and nowhere else. */
  lemma LineEndsAre(pos: int, n: nat)
    ensures var b := [97, 13, 10, 10, 98];
      && (LineEnd(b, EolAny, 0, pos, n) <==> pos == 1 && n == 3)
      && (LineEnd(b, EolLf, 0, pos, n) <==> pos == 2 && n == 1)
      && (LineEnd(b, EolCrlfStrict, 0, pos, n) <==> pos == 1 && n == 2)
      && (LineEnd(b, EolCrlf, 0, pos, n) <==> pos == 1 && n == 2)
  {
    var b := [97, 13, 10, 10, 98];
    assert b[1] == 13 && b[2] == 10 && b[3] == 10;
    assert Match(b, [CR, LF], 1) && !Match(b, [CR, LF], 0);
  }

  /** State of the `EVBUFFER_EOL_CRLF` loop: no LF so far, and not just behind the CR of a CR LF. */
  ghost predicate CrlfSoFar(b: seq<Byte>, s: nat, pos: int) {
    && s <= pos <= |b|
    && NoneOf(b, {LF}, s, pos)
    && (s < pos < |b| && b[pos - 1] == CR ==> b[pos] != LF)
  }

  lemma CrlfStep(b: seq<Byte>, s: nat, pos: int, next: int)
    requires CrlfSoFar(b, s, pos) && FirstOf(b, {CR, LF}, pos, next)
    ensures next == -1 ==> LineEnd(b, EolCrlf, s, -1, 0)
    ensures next >= 0 ==> s <= pos <= next < |b|
    ensures next >= 0 && b[next] == LF ==> LineEnd(b, EolCrlf, s, next, 1)
    ensures next >= 0 && b[next] != LF && Match(b, [CR, LF], next) ==> LineEnd(b, EolCrlf, s, next, 2)
    ensures next >= 0 && b[next] != LF && !Match(b, [CR, LF], next) ==> CrlfSoFar(b, s, next + 1)
    ensures next >= 0 && b[next] != LF && next + 1 >= |b| ==> LineEnd(b, EolCrlf, s, -1, 0)
  {
    if next >= 0 {
      if next + 1 < |b| {
        assert b[next..next + 2] == [b[next], b[next + 1]];
      }
      assert Match(b, [CR, LF], next) ==> b[next..next + 2][1] == LF && b[next + 1] == LF;
    }
  }

  /** The loop for `EVBUFFER_EOL_CRLF`. */
  method SearchCrlf(buf: EvBuffer, it: Ptr, ghost k: nat) returns (r: Ptr, n: nat, ghost kr: nat)
    requires buf.Valid() && 0 <= it.pos <= |buf.Contents()| && Searching(buf, it, k)
    ensures LineEnd(buf.Contents(), EolCrlf, it.pos, r.pos, n)
    ensures r.pos == -1 || OnByte(buf, r, kr)
  {
    hide Flatten, Separate, Held, Linked, Packed, Chain.Holds, Match, FirstOf, LineEnd, CrlfSoFar;
    ghost var b, s: nat := buf.Contents(), it.pos;
    r, kr := it, k;
    CrlfStart(b, s);
    while true
      invariant Searching(buf, r, kr) && s <= r.pos <= |b|
      invariant CrlfSoFar(b, s, r.pos)
      decreases |b| - r.pos
    {
      ghost var before := r.pos;
      r, kr := FindStop(buf, r, None, kr);
      CrlfStep(b, s, before, r.pos);
      if r.pos < 0 { return r, 0, kr; }
      NextChain(buf, kr);
      ByteOf(buf.pieces, kr, r.posInChain);
      var c := ByteAt(r.chain, r.posInChain, buf.pieces[kr]);
      if c == LF { return r, 1, kr; }
      var crlf := PtrMemcmp(buf, r, [CR, LF], kr);
      if crlf { return r, 2, kr; }
      var ok;
      ok, r, kr := PtrSet(buf, Some(r), 1, kr);
      if !ok { return Ptr(-1, null, 0), 0, kr; }
    }
  }

  lemma CrlfStart(b: seq<Byte>, s: nat)
    requires s <= |b|
    ensures CrlfSoFar(b, s, s)
  {
  }

  /** `evbuffer_search_eol`. */
  method SearchEol(buf: EvBuffer, start: Option<Ptr>, style: EolStyle) returns (r: Ptr, n: nat, ghost kr: nat)
    requires buf.Valid()
    requires start.Some? ==> exists k :: At(buf, start.value, k)
    ensures StartOf(buf, start).pos >= 0
    ensures LineEnd(buf.Contents(), style, StartOf(buf, start).pos, r.pos, n)
    ensures r.pos == -1 || OnByte(buf, r, kr)
  {
    hide Flatten, Separate, Held, Linked, Packed, Chain.Holds, Match, FirstOf, Found, EolRun;
    var it := StartOf(buf, start);
    ghost var k: nat := 0;
    if start.None? {
      StartAt(buf, start);
    } else {
      k :| At(buf, start.value, k);
    }
    StartSearching(buf, it, k);
    match style {
      case EolAny =>
        r, kr := FindStop(buf, it, None, k);
        if r.pos < 0 { return r, 0, kr; }
        n := StrSpn(buf, r, kr);
        RunNotEmpty(buf.Contents(), it.pos, r.pos, n);
      case EolCrlfStrict =>
        r, kr := SearchRange(buf, [CR, LF], start, None);
        n := if r.pos < 0 then 0 else 2;
      case EolCrlf =>
        r, n, kr := SearchCrlf(buf, it, k);
      case EolLf =>
        r, kr := FindStop(buf, it, Some(LF), k);
        n := if r.pos < 0 then 0 else 1;
    }
  }

  lemma StartSearching(buf: EvBuffer, it: Ptr, k: nat)
    requires buf.Valid() && (At(buf, it, k) || (it == Ptr(0, null, 0) && buf.Contents() == [] && k == 0))
    ensures Searching(buf, it, k) && 0 <= it.pos <= |buf.Contents()|
  {
    hide Flatten, Separate, Linked, Packed;
    if k < |buf.chains| { NextChain(buf, k); }
  }

  lemma RunNotEmpty(b: seq<Byte>, s: int, pos: int, n: nat)
    requires pos >= 0 && FirstOf(b, {CR, LF}, s, pos) && EolRun(b, pos, n)
    ensures n > 0
  {
  }

  /** `evbuffer_readln`: line, terminator and remaining buffer make up the old contents, cut where `LineEnd` says;
      nothing is taken if there is no terminator or the front is frozen. */
  method ReadLn(buf: EvBuffer, style: EolStyle) returns (line: Option<seq<Byte>>, ghost n: nat)
    requires buf.Valid()
    modifies buf, buf.chains
    ensures buf.Valid()
    ensures line.None? ==> buf.Contents() == old(buf.Contents())
    ensures line.None? ==> buf.freezeStart || LineEnd(old(buf.Contents()), style, 0, -1, n)
    ensures line.Some? ==>
              && LineEnd(old(buf.Contents()), style, 0, |line.value|, n)
              && |line.value| + n <= |old(buf.Contents())|
              && old(buf.Contents())
                   == line.value + old(buf.Contents())[|line.value|..|line.value| + n] + buf.Contents()
    ensures buf.freezeStart == old(buf.freezeStart) && buf.freezeEnd == old(buf.freezeEnd)
    ensures forall i :: 0 <= i < |buf.chains| ==> buf.chains[i] in old(buf.chains)
  {
    hide Flatten, Separate, Held, Linked, Packed, Chain.Holds, LineEnd;
    n := 0;
    if buf.freezeStart { return None, 0; }
    ghost var b := buf.Contents();
    var it, extra;
    ghost var k;
    it, extra, k := SearchEol(buf, None, style);
    n := extra;
    if it.pos < 0 { return None, n; }
    LineFits(b, style, it.pos, extra);
    var r, text := buf.Remove(it.pos);
    ghost var rest := buf.Contents();
    r := buf.Drain(extra);
    LineParts(b, text, rest, it.pos, extra);
    return Some(text), n;
  }

  lemma LineFits(b: seq<Byte>, style: EolStyle, pos: nat, n: nat)
    requires LineEnd(b, style, 0, pos, n)
    ensures 0 < n && pos + n <= |b|
  {
  }

  lemma LineParts(b: seq<Byte>, text: seq<Byte>, rest: seq<Byte>, pos: nat, n: nat)
    requires b == text + rest && |text| == pos && pos + n <= |b|
    ensures n <= |rest| && b == text + b[pos..pos + n] + rest[n..]
  {
    assert rest == b[pos..];
    assert rest[..n] == b[pos..pos + n];
    assert rest == rest[..n] + rest[n..];
  }
}

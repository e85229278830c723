/** The select backend of libev (`ev_select.c`) in its own bit vectors: word `fd / 32`, bit `fd % 32`. */
module SelectBits {

  import opened Pending
  import opened FdInterest

  /** NFDBITS for the 32-bit `fd_mask` of Android. */
  const NFD_BITS: nat := 32

  /** `1UL << k`, as a table. */
  function Mask(k: nat): (m: bv32)
    requires k < NFD_BITS
  {
    match k
    case 0 => 0x1
    case 1 => 0x2
    case 2 => 0x4
    case 3 => 0x8
    case 4 => 0x10
    case 5 => 0x20
    case 6 => 0x40
    case 7 => 0x80
    case 8 => 0x100
    case 9 => 0x200
    case 10 => 0x400
    case 11 => 0x800
    case 12 => 0x1000
    case 13 => 0x2000
    case 14 => 0x4000
    case 15 => 0x8000
    case 16 => 0x10000
    case 17 => 0x20000
    case 18 => 0x40000
    case 19 => 0x80000
    case 20 => 0x100000
    case 21 => 0x200000
    case 22 => 0x400000
    case 23 => 0x800000
    case 24 => 0x1000000
    case 25 => 0x2000000
    case 26 => 0x4000000
    case 27 => 0x8000000
    case 28 => 0x10000000
    case 29 => 0x20000000
    case 30 => 0x40000000
    case _ => 0x80000000
  }

  predicate OneBit(m: bv32) {
    m != 0 && m & (m - 1) == 0
  }

  lemma MaskFacts(k: nat)
    requires k < NFD_BITS
    ensures k > 0 ==> Below(Mask(k - 1), Mask(k))
  {
  }

  lemma MaskOne(k: nat)
    requires k < NFD_BITS
    ensures OneBit(Mask(k))
  {
  }

  lemma {:induction false} MasksRise(j: nat, k: nat)
    requires j < k < NFD_BITS
    ensures Below(Mask(j), Mask(k))
  {
    hide Mask, Below;
    MaskFacts(k);
    if j < k - 1 {
      MasksRise(j, k - 1);
      BelowBelow(Mask(j), Mask(k - 1), Mask(k));
    }
  }

  predicate Below(a: bv32, b: bv32) { a < b }

  lemma BelowBelow(a: bv32, b: bv32, c: bv32)
    requires Below(a, b) && Below(b, c)
    ensures Below(a, c)
  {
  }

  lemma BelowApart(a: bv32, b: bv32)
    requires Below(a, b)
    ensures a != b
  {
  }

  predicate Apart(a: bv32, b: bv32) { a & b == 0 }

  lemma MaskApart(a: bv32, b: bv32)
    requires OneBit(a) && OneBit(b) && a != b
    ensures Apart(a, b)
  {
  }

  predicate IsSet(w: bv32, k: nat)
    requires k < NFD_BITS
  {
    Hit(w, Mask(k))
  }

  predicate Hit(w: bv32, m: bv32) { w & m != 0 }
  function On(w: bv32, m: bv32): bv32 { w | m }
  function Off(w: bv32, m: bv32): bv32 { w & !m }

  /** Setting or clearing one bit leaves the others. */
  lemma BitSet(w: bv32, k: nat, j: nat)
    requires k < NFD_BITS && j < NFD_BITS
    ensures IsSet(On(w, Mask(k)), j) <==> j == k || IsSet(w, j)
    ensures IsSet(Off(w, Mask(k)), j) <==> j != k && IsSet(w, j)
  {
    hide Mask, OneBit, Hit, On, Off, Below;
    MaskOne(k);
    MaskOne(j);
    if j < k {
      MasksRise(j, k);
      BelowApart(Mask(j), Mask(k));
    } else if k < j {
      MasksRise(k, j);
      BelowApart(Mask(k), Mask(j));
    }
    BitsOf(w, Mask(k), Mask(j));
  }

  lemma BitsOf(w: bv32, a: bv32, b: bv32)
    requires OneBit(a) && OneBit(b)
    ensures Hit(On(w, a), b) <==> a == b || Hit(w, b)
    ensures Hit(Off(w, a), b) <==> a != b && Hit(w, b)
  {
    hide Hit, On, Off, OneBit, Apart;
    SameBit(w, a);
    if a != b {
      MaskApart(a, b);
      OtherBit(w, a, b);
    }
  }

  lemma SameBit(w: bv32, a: bv32)
    requires OneBit(a)
    ensures Hit(On(w, a), a) && !Hit(Off(w, a), a)
  {
  }

  lemma OtherOn(w: bv32, a: bv32, b: bv32)
    requires Apart(a, b)
    ensures On(w, a) & b == w & b
  {
  }

  lemma OtherOff(w: bv32, a: bv32, b: bv32)
    requires Apart(a, b)
    ensures Off(w, a) & b == w & b
  {
  }

  lemma OtherBit(w: bv32, a: bv32, b: bv32)
    requires Apart(a, b)
    ensures Hit(On(w, a), b) <==> Hit(w, b)
    ensures Hit(Off(w, a), b) <==> Hit(w, b)
  {
    hide Apart, On, Off;
    OtherOn(w, a, b);
    OtherOff(w, a, b);
  }

  lemma ZeroBits(k: nat)
    requires k < NFD_BITS
    ensures !IsSet(0, k)
  {
  }

  /** `FD_ISSET` */
  predicate Has(v: seq<bv32>, fd: nat) {
    fd / NFD_BITS < |v| && IsSet(v[fd / NFD_BITS], fd % NFD_BITS)
  }

  function EventsOf(r: bool, w: bool): set<Bit> {
    (if r then {Read} else {}) + (if w then {Write} else {})
  }

  /** What `select` will watch. */
  ghost function Watched(ri: seq<bv32>, wi: seq<bv32>): (t: Table) {
    map fd: nat | fd < NFD_BITS * |ri| && (Has(ri, fd) || Has(wi, fd)) :: EventsOf(Has(ri, fd), Has(wi, fd))
  }

  lemma Located(v: seq<bv32>, fd: nat)
    ensures Has(v, fd) ==> fd < NFD_BITS * |v|
  {
  }

  /** The vector with the bit of `fd` as wanted. */
  function Put(v: seq<bv32>, fd: nat, on: bool): (r: seq<bv32>)
    requires fd / NFD_BITS < |v|
  {
    var word, m := v[fd / NFD_BITS], Mask(fd % NFD_BITS);
    v[fd / NFD_BITS := if on then On(word, m) else Off(On(word, m), m)]
  }

  lemma PutIs(v: seq<bv32>, fd: nat, on: bool, x: nat)
    requires fd / NFD_BITS < |v|
    ensures |Put(v, fd, on)| == |v|
    ensures Has(Put(v, fd, on), x) <==> if x == fd then on else Has(v, x)
  {
    hide IsSet, Mask, On, Off;
    var k, w := fd % NFD_BITS, v[fd / NFD_BITS];
    BitSet(w, k, x % NFD_BITS);
    BitSet(On(w, Mask(k)), k, x % NFD_BITS);
    assert x == fd <==> x / NFD_BITS == fd / NFD_BITS && x % NFD_BITS == k;
  }

  lemma GrownIs(v: seq<bv32>, n: nat, x: nat)
    ensures Has(v + seq(n, i => 0), x) <==> Has(v, x)
  {
    ZeroBits(x % NFD_BITS);
  }

  class Select {
    var vecRi: seq<bv32>
    var vecWi: seq<bv32>

    ghost predicate Valid() reads this { |vecRi| == |vecWi| }

    constructor ()
      ensures Valid() && Watched(vecRi, vecWi) == map[]
    {
      vecRi, vecWi := [], [];
    }

    /** `select_modify`: it does what a backend must, given that the caller's old mask is what the vectors hold. */
    method Modify(fd: nat, oev: set<Bit>, nev: set<Bit>)
      requires Valid() && oev == Holds(Watched(vecRi, vecWi), fd) && nev <= {Read, Write}
      modifies this
      ensures Valid() && Watched(vecRi, vecWi) == Told(old(Watched(vecRi, vecWi)), fd, nev)
    {
      hide Has, Put, Watched, Told;
      ghost var r0, w0 := vecRi, vecWi;
      if oev == nev {
        SameTold(vecRi, vecWi, fd, nev);
        return;
      }
      var word := fd / NFD_BITS;
      if |vecRi| <= word {
        var zeros := seq(word + 1 - |vecRi|, i => 0);
        forall x: nat
          ensures Has(vecRi + zeros, x) <==> Has(vecRi, x)
          ensures Has(vecWi + zeros, x) <==> Has(vecWi, x)
        {
          GrownIs(vecRi, word + 1 - |vecRi|, x);
          GrownIs(vecWi, word + 1 - |vecRi|, x);
        }
        vecRi, vecWi := vecRi + zeros, vecWi + zeros;
      }
      forall x: nat
        ensures Has(Put(vecRi, fd, Read in nev), x) <==> if x == fd then Read in nev else Has(r0, x)
        ensures Has(Put(vecWi, fd, Write in nev), x) <==> if x == fd then Write in nev else Has(w0, x)
      {
        PutIs(vecRi, fd, Read in nev, x);
        PutIs(vecWi, fd, Write in nev, x);
      }
      PutIs(vecRi, fd, Read in nev, 0);
      PutIs(vecWi, fd, Write in nev, 0);
      vecRi := Put(vecRi, fd, Read in nev);
      vecWi := Put(vecWi, fd, Write in nev);
      NowTold(r0, w0, vecRi, vecWi, fd, nev);
    }

    /** The scan in `select_poll` over the answered vectors: each descriptor with an event is reported once, with
        exactly its events. */
    method Scan(ro: seq<bv32>, wo: seq<bv32>) returns (log: seq<(nat, set<Bit>)>)
      requires |ro| == |wo|
      ensures forall fd: nat :: Has(ro, fd) || Has(wo, fd) ==> Reported(log, fd, EventsOf(Has(ro, fd), Has(wo, fd)))
      ensures forall k :: 0 <= k < |log| ==>
                  (Has(ro, log[k].0) || Has(wo, log[k].0)) && log[k].1 == EventsOf(Has(ro, log[k].0), Has(wo, log[k].0))
      ensures forall j, k :: 0 <= j < k < |log| ==> log[j].0 > log[k].0
    {
      hide Has, IsSet, ScannedTo, EventsOf;
      log := [];
      AllLocated(ro, wo);
      var word := |ro|;
      while word > 0
        invariant 0 <= word <= |ro|
        invariant ScannedTo(ro, wo, log, NFD_BITS * word)
      {
        word := word - 1;
        var wordR, wordW := ro[word], wo[word];
        if wordR != 0 || wordW != 0 {
          var bit := NFD_BITS;
          while bit > 0
            invariant 0 <= bit <= NFD_BITS
            invariant ScannedTo(ro, wo, log, NFD_BITS * word + bit)
          {
            bit := bit - 1;
            var fd := word * NFD_BITS + bit;
            var events := EventsOf(IsSet(wordR, bit), IsSet(wordW, bit));
            BitOf(ro, word, bit);
            BitOf(wo, word, bit);
            ScanStep(ro, wo, log, fd);
            if events != {} {
              log := log + [(fd, events)];
            }
          }
        } else {
          SkipWord(ro, wo, log, word);
        }
      }
      ScannedAll(ro, wo, log);
    }
  }

  predicate Reported(log: seq<(nat, set<Bit>)>, fd: nat, events: set<Bit>) {
    exists k :: 0 <= k < |log| && log[k] == (fd, events)
  }

  /** `log` holds exactly the descriptors from `low` on that have events, highest first. */
  ghost predicate ScannedTo(ro: seq<bv32>, wo: seq<bv32>, log: seq<(nat, set<Bit>)>, low: int) {
    && (forall fd: nat :: fd >= low && (Has(ro, fd) || Has(wo, fd)) ==>
            Reported(log, fd, EventsOf(Has(ro, fd), Has(wo, fd))))
    && (forall k :: 0 <= k < |log| ==> log[k].0 >= low && (Has(ro, log[k].0) || Has(wo, log[k].0))
                                       && log[k].1 == EventsOf(Has(ro, log[k].0), Has(wo, log[k].0)))
    && (forall j, k :: 0 <= j < k < |log| ==> log[j].0 > log[k].0)
  }

  lemma ScannedAll(ro: seq<bv32>, wo: seq<bv32>, log: seq<(nat, set<Bit>)>)
    requires ScannedTo(ro, wo, log, 0)
    ensures forall fd: nat :: Has(ro, fd) || Has(wo, fd) ==> Reported(log, fd, EventsOf(Has(ro, fd), Has(wo, fd)))
    ensures forall k :: 0 <= k < |log| ==>
                (Has(ro, log[k].0) || Has(wo, log[k].0)) && log[k].1 == EventsOf(Has(ro, log[k].0), Has(wo, log[k].0))
    ensures forall j, k :: 0 <= j < k < |log| ==> log[j].0 > log[k].0
  {
  }

  lemma AllLocated(ro: seq<bv32>, wo: seq<bv32>)
    requires |ro| == |wo|
    ensures ScannedTo(ro, wo, [], NFD_BITS * |ro|)
  {
    forall fd: nat
      ensures Has(ro, fd) || Has(wo, fd) ==> fd < NFD_BITS * |ro|
    {
      Located(ro, fd);
      Located(wo, fd);
    }
  }

  lemma BitOf(v: seq<bv32>, word: nat, bit: nat)
    requires word < |v| && bit < NFD_BITS
    ensures Has(v, word * NFD_BITS + bit) <==> IsSet(v[word], bit)
  {
    assert (word * NFD_BITS + bit) / NFD_BITS == word && (word * NFD_BITS + bit) % NFD_BITS == bit;
  }

  lemma ScanStep(ro: seq<bv32>, wo: seq<bv32>, log: seq<(nat, set<Bit>)>, fd: nat)
    requires ScannedTo(ro, wo, log, fd + 1)
    ensures var events := EventsOf(Has(ro, fd), Has(wo, fd));
      ScannedTo(ro, wo, if events != {} then log + [(fd, events)] else log, fd)
  {
    hide Has;
    var events := EventsOf(Has(ro, fd), Has(wo, fd));
    assert events != {} <==> Has(ro, fd) || Has(wo, fd) by {
      assert Has(ro, fd) ==> Read in events;
      assert Has(wo, fd) ==> Write in events;
    }
    var more := if events != {} then log + [(fd, events)] else log;
    forall x: nat | x >= fd && (Has(ro, x) || Has(wo, x))
      ensures Reported(more, x, EventsOf(Has(ro, x), Has(wo, x)))
    {
      if x == fd {
        assert more[|log|] == (fd, events);
      } else {
        var k :| 0 <= k < |log| && log[k] == (x, EventsOf(Has(ro, x), Has(wo, x)));
        assert more[k] == log[k];
      }
    }
  }

  lemma SkipWord(ro: seq<bv32>, wo: seq<bv32>, log: seq<(nat, set<Bit>)>, word: nat)
    requires word < |ro| == |wo| && ro[word] == 0 && wo[word] == 0 && ScannedTo(ro, wo, log, NFD_BITS * (word + 1))
    ensures ScannedTo(ro, wo, log, NFD_BITS * word)
  {
    forall fd: nat | NFD_BITS * word <= fd < NFD_BITS * (word + 1)
      ensures !Has(ro, fd) && !Has(wo, fd)
    {
      assert fd / NFD_BITS == word;
      ZeroBits(fd % NFD_BITS);
    }
    hide Has;
  }

  lemma SameTold(ri: seq<bv32>, wi: seq<bv32>, fd: nat, nev: set<Bit>)
    requires nev == Holds(Watched(ri, wi), fd)
    ensures Told(Watched(ri, wi), fd, nev) == Watched(ri, wi)
  {
    var t := Watched(ri, wi);
    if fd in t {
      assert Has(ri, fd) ==> Read in t[fd];
      assert Has(wi, fd) ==> Write in t[fd];
    }
  }

  lemma NowTold(r0: seq<bv32>, w0: seq<bv32>, ri: seq<bv32>, wi: seq<bv32>, fd: nat, nev: set<Bit>)
    requires nev <= {Read, Write} && |r0| == |w0| && |ri| == |wi|
    requires forall x: nat :: Has(ri, x) <==> if x == fd then Read in nev else Has(r0, x)
    requires forall x: nat :: Has(wi, x) <==> if x == fd then Write in nev else Has(w0, x)
    ensures Watched(ri, wi) == Told(Watched(r0, w0), fd, nev)
  {
    forall x: nat
      ensures x in Watched(ri, wi) <==> Has(ri, x) || Has(wi, x)
      ensures x in Watched(r0, w0) <==> Has(r0, x) || Has(w0, x)
    {
      Located(ri, x);
      Located(wi, x);
      Located(r0, x);
      Located(w0, x);
    }
    hide Has;
    assert nev == EventsOf(Read in nev, Write in nev);
  }
}

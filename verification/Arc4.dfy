/** The random generator of libevent (`arc4random.c`): the RC4 table, and numbers below a bound without bias. */
module Arc4 {

  import opened Wrappers
  import opened Bytes
  import opened Arithmetic

  // ---------- The table ----------

  datatype Stream = Stream(i: Byte, j: Byte, s: seq<Byte>)

  function Wrap(x: int): (b: Byte) { x % 256 }

  function Swapped(s: seq<Byte>, a: Byte, b: Byte): (r: seq<Byte>)
    requires |s| == 256
    ensures |r| == 256 && r[a] == s[b] && r[b] == s[a] && forall k :: 0 <= k < 256 && k != a && k != b ==> r[k] == s[k]
  {
    s[a := s[b]][b := s[a]]
  }

  /** Every byte occurs, and none twice. */
  predicate Permutation(s: seq<Byte>) {
    && |s| == 256
    && (forall a, b :: 0 <= a < b < 256 ==> s[a] != s[b])
    && (forall v: Byte :: v in s)
  }

  /** One step: `i` moves on, `j` moves by the entry at `i` and by `key`, and the two entries change places. */
  function Step(x: Stream, key: int): (r: Stream)
    requires |x.s| == 256
    ensures |r.s| == 256
  {
    var i := Wrap(x.i + 1);
    var j := Wrap(x.j + x.s[i] + key);
    Stream(i, j, Swapped(x.s, i, j))
  }

  /** The first `n` steps of the key schedule. */
  function Schedule(x: Stream, dat: seq<Byte>, n: nat): (r: Stream)
    requires |x.s| == 256 && dat != []
    ensures |r.s| == 256
  {
    if n == 0 then x else Step(Schedule(x, dat, n - 1), dat[(n - 1) % |dat|])
  }

  function Mixed(x: Stream, dat: seq<Byte>): (r: Stream)
    requires |x.s| == 256 && dat != []
    ensures |r.s| == 256
  {
    var y := Schedule(x.(i := Wrap(x.i - 1)), dat, 256);
    y.(j := y.i)
  }

  lemma {:induction false} Identity(s: seq<Byte>)
    requires |s| == 256 && forall k :: 0 <= k < 256 ==> s[k] == k
    ensures Permutation(s)
  {
    forall v: Byte
      ensures v in s
    {
      assert s[v] == v;
    }
  }

  lemma {:induction false} SwapPermutes(s: seq<Byte>, a: Byte, b: Byte)
    requires Permutation(s)
    ensures Permutation(Swapped(s, a, b))
  {
    var r := Swapped(s, a, b);
    forall v: Byte
      ensures v in r
    {
      assert v in s;
      var k :| 0 <= k < 256 && s[k] == v;
      assert r[if k == a then b else if k == b then a else k] == v;
    }
  }

  lemma {:induction false} SchedulePermutes(x: Stream, dat: seq<Byte>, n: nat)
    requires Permutation(x.s) && dat != []
    ensures Permutation(Schedule(x, dat, n).s)
  {
    if n > 0 {
      var y := Schedule(x, dat, n - 1);
      SchedulePermutes(x, dat, n - 1);
      StepPermutes(y, dat[(n - 1) % |dat|]);
    }
  }

  lemma {:induction false} StepPermutes(x: Stream, key: int)
    requires Permutation(x.s)
    ensures Permutation(Step(x, key).s)
  {
    var i := Wrap(x.i + 1);
    SwapPermutes(x.s, i, Wrap(x.j + x.s[i] + key));
  }

  /** What step `n` of the key schedule does: `i` moves on by one, `j` by the entry found there and by byte `n` of the
      key, which is used again and again from its start, and these two entries change places. */
  lemma {:induction false} ScheduleStep(x: Stream, dat: seq<Byte>, n: nat)
    requires |x.s| == 256 && dat != []
    ensures var a, b := Schedule(x, dat, n), Schedule(x, dat, n + 1);
      var i: int, j: int, key: int := a.i, a.j, dat[n % |dat|];
      && b.i == (i + 1) % 256
      && b.j == (j + a.s[b.i] + key) % 256
      && b.s[b.i] == a.s[b.j] && b.s[b.j] == a.s[b.i]
      && forall k :: 0 <= k < 256 && k != b.i && k != b.j ==> b.s[k] == a.s[k]
  {
  }

  /** The states before and after a step give the byte of the key back. */
  lemma {:induction false} KeyRecovered(x: Stream, dat: seq<Byte>, n: nat)
    requires |x.s| == 256 && dat != []
    ensures var a, b := Schedule(x, dat, n), Schedule(x, dat, n + 1);
      var j: int, next: int := a.j, b.j;
      dat[n % |dat|] == (next - j - a.s[b.i]) % 256
  {
    var a, b := Schedule(x, dat, n), Schedule(x, dat, n + 1);
    ScheduleStep(x, dat, n);
    var j: int, next: int, old': int, key: int := a.j, b.j, a.s[b.i], dat[n % |dat|];
    hide Schedule, Wrap;
    Undone(j + old', key, next);
  }

  lemma Undone(base: int, key: int, next: int)
    requires 0 <= key < 256 && next == (base + key) % 256
    ensures (next - base) % 256 == key
  {
  }

  /** The 256 steps of `arc4_addrandom` take `i` round to where they started, one before its old value, and `j` with
      it. */
  lemma {:induction false} MixedEnds(x: Stream, dat: seq<Byte>)
    requires |x.s| == 256 && dat != []
    ensures var i: int := x.i; Mixed(x, dat).i == Mixed(x, dat).j == if i == 0 then 255 else i - 1
    ensures Mixed(x, dat).s == Schedule(x.(i := Wrap(x.i - 1)), dat, 256).s
  {
    hide Schedule;
    IndexAfter(x.(i := Wrap(x.i - 1)), dat, 256);
  }

  lemma {:induction false} IndexAfter(x: Stream, dat: seq<Byte>, n: nat)
    requires |x.s| == 256 && dat != [] && n <= 256
    ensures var i: int := x.i; Schedule(x, dat, n).i == if i + n < 256 then i + n else i + n - 256
  {
    hide *;
    if n == 0 {
      ScheduleNone(x, dat);
    } else {
      IndexAfter(x, dat, n - 1);
      IndexStep(x, dat, n - 1);
    }
  }

  lemma ScheduleNone(x: Stream, dat: seq<Byte>)
    requires |x.s| == 256 && dat != []
    ensures Schedule(x, dat, 0) == x
  {
  }

  lemma IndexStep(x: Stream, dat: seq<Byte>, n: nat)
    requires |x.s| == 256 && dat != []
    ensures var i: int := Schedule(x, dat, n).i; Schedule(x, dat, n + 1).i == if i == 255 then 0 else i + 1
  {
    ScheduleStep(x, dat, n);
    hide Schedule;
  }

  /** The step before. */
  function Back(x: Stream, key: int): Stream
    requires |x.s| == 256
  {
    var s := Swapped(x.s, x.i, x.j);
    Stream(Wrap(x.i - 1), Wrap(x.j - s[x.i] - key), s)
  }

  /** No state is lost: each step can be undone. */
  lemma {:induction false} StepReversible(x: Stream, key: int)
    requires |x.s| == 256
    ensures Back(Step(x, key), key) == x
  {
    var y := Step(x, key);
    var s := Swapped(y.s, y.i, y.j);
    assert s == x.s;
    BackIndex(x.i, 1);
    BackIndex(x.j, x.s[y.i] + key);
  }

  lemma {:induction false} BackIndex(a: Byte, d: int)
    ensures Wrap(Wrap(a + d) - d) == a
  {
    var q := (a + d) / 256;
    assert a + d == 256 * q + Wrap(a + d);
    assert Wrap(a + d) - d == a + 256 * -q;
  }

  // ---------- Numbers below a bound ----------

  /** `unsigned int` arithmetic. */
  function U32(x: int): (r: nat)
    ensures r < TWO_TO_32
  {
    x % TWO_TO_32
  }

  /** The least draw that is kept, computed in 32 bits. */
  function Least(bound: nat): (min: nat)
    requires 2 <= bound < TWO_TO_32
  {
    if bound > 0x8000_0000 then
      U32(1 + U32(0xffff_ffff - bound))
    else
      U32(U32(0xffff_ffff - U32(bound * 2)) + 1) % bound
  }

  lemma {:induction false} LeastIs(bound: nat)
    requires 2 <= bound < 0x1_0000_0000
    ensures Least(bound) == 0x1_0000_0000 % bound
  {
    hide U32;
    Wrapped(bound);
    if bound > 0x8000_0000 {
      ModUnique(bound, 1, TWO_TO_32, TWO_TO_32 - bound);
    } else {
      LessTwice(bound, TWO_TO_32);
    }
  }

  lemma Wrapped(bound: nat)
    requires 2 <= bound < TWO_TO_32
    ensures U32(1 + U32(0xffff_ffff - bound)) == TWO_TO_32 - bound
    ensures bound <= 0x8000_0000 ==> U32(U32(0xffff_ffff - U32(bound * 2)) + 1) == TWO_TO_32 - bound * 2
  {
  }

  lemma {:induction false} LessTwice(bound: nat, x: nat)
    requires bound > 0
    ensures (x - bound * 2) % bound == x % bound
  {
    DivMod(x - bound * 2, bound);
    Distribute(bound, (x - bound * 2) / bound, 2);
    ModUnique(bound, (x - bound * 2) / bound + 2, x, (x - bound * 2) % bound);
  }

  /** `arc4random_uniform` with the values that `arc4random` will return; nothing if it draws on after the last. */
  method Uniform(bound: nat, draws: seq<nat>) returns (r: Option<nat>, used: nat)
    requires bound < 0x1_0000_0000 && forall k :: 0 <= k < |draws| ==> draws[k] < 0x1_0000_0000
    ensures bound < 2 ==> r == Some(0) && used == 0
    ensures bound >= 2 && r.Some? ==>
              1 <= used <= |draws| && draws[used - 1] >= 0x1_0000_0000 % bound
              && r.value == draws[used - 1] % bound < bound
    ensures bound >= 2 ==>
              used <= |draws|
              && forall k :: 0 <= k < (if r.Some? then used - 1 else |draws|) ==> draws[k] < 0x1_0000_0000 % bound
  {
    if bound < 2 {
      return Some(0), 0;
    }
    LeastIs(bound);
    var min: nat;
    if bound > 0x8000_0000 {
      min := U32(1 + U32(0xffff_ffff - bound));
    } else {
      min := U32(U32(0xffff_ffff - U32(bound * 2)) + 1) % bound;
    }
    used := 0;
    while used < |draws|
      invariant used <= |draws| && forall k :: 0 <= k < used ==> draws[k] < min
    {
      var x := draws[used];
      used := used + 1;
      if x >= min {
        return Some(x % bound), used;
      }
    }
    r := None;
  }

  /** The draws from `lo` on, below `hi`, that give `v`. */
  function Preimages(lo: nat, hi: nat, bound: nat, v: nat): (s: set<nat>)
    requires bound > 0
  {
    set x: nat | lo <= x < hi && x % bound == v
  }

  lemma {:induction false} OnePerBlock(lo: nat, bound: nat, v: nat)
    requires v < bound
    ensures |Preimages(lo, lo + bound, bound, v)| == 1
  {
    var q, r := lo / bound, lo % bound;
    DivMod(lo, bound);
    Distribute(bound, q, 1);
    var x: nat, k := if v >= r then lo + v - r else lo + v - r + bound, if v >= r then q else q + 1;
    ModUnique(bound, k, x, v);
    var s := Preimages(lo, lo + bound, bound, v);
    forall y | y in s
      ensures y == x
    {
      SameResidue(bound, x, y);
    }
    assert x in s;
    assert s == {x};
  }

  lemma {:induction false} BlockCount(lo: nat, n: nat, bound: nat, v: nat)
    requires v < bound
    ensures |Preimages(lo, lo + n * bound, bound, v)| == n
  {
    if n == 0 {
      assert Preimages(lo, lo, bound, v) == {};
    } else {
      var mid := lo + (n - 1) * bound;
      BlockCount(lo, n - 1, bound, v);
      OnePerBlock(mid, bound, v);
      assert mid + bound == lo + n * bound;
      var a, b := Preimages(lo, mid, bound, v), Preimages(mid, mid + bound, bound, v);
      assert Preimages(lo, mid + bound, bound, v) == a + b && a !! b;
    }
  }

  /** No bias: the draws that are kept give every number below the bound equally often. */
  lemma {:induction false} Unbiased(bound: nat, v: nat)
    requires 2 <= bound < TWO_TO_32 && v < bound
    ensures |Preimages(Least(bound), TWO_TO_32, bound, v)| == (TWO_TO_32 - Least(bound)) / bound == TWO_TO_32 / bound
    ensures (TWO_TO_32 - Least(bound)) % bound == 0
  {
    hide Least;
    LeastIs(bound);
    var n := TWO_TO_32 / bound;
    DivMod(TWO_TO_32, bound);
    BlockCount(Least(bound), n, bound, v);
    assert Least(bound) + n * bound == TWO_TO_32;
    ModUnique(bound, n, TWO_TO_32 - Least(bound), 0);
  }

  /** More than half of all draws are kept. */
  lemma {:induction false} MostKept(bound: nat)
    requires 2 <= bound < TWO_TO_32
    ensures 2 * Least(bound) < TWO_TO_32
  {
    LeastIs(bound);
    DivMod(TWO_TO_32, bound);
    Multiple(bound, TWO_TO_32 / bound);
    Multiple(bound, -(TWO_TO_32 / bound));
  }

  /** `struct arc4_stream` */
  class Generator {
    var i: Byte
    var j: Byte
    const s: array<Byte>

    ghost predicate Valid() reads this, s { s.Length == 256 && Permutation(s[..]) }

    ghost function Value(): Stream reads this, s { Stream(i, j, s[..]) }

    /** `arc4_init` */
    constructor ()
      ensures Valid() && fresh(s) && i == 0 && j == 0 && forall n :: 0 <= n < 256 ==> s[n] == n
    {
      var t := new Byte[256];
      for n := 0 to 256
        invariant forall k :: 0 <= k < n ==> t[k] == k
      {
        t[n] := n;
      }
      i, j, s := 0, 0, t;
      Identity(t[..]);
    }

    /** The step that `arc4_addrandom` and `arc4_getbyte` share. */
    method Advance(key: int)
      requires s.Length == 256
      modifies this, s
      ensures Value() == Step(old(Value()), key)
    {
      ghost var was := s[..];
      i := Wrap(i as int + 1);
      var si := s[i];
      j := Wrap(j as int + si as int + key);
      s[i] := s[j];
      s[j] := si;
      assert s[..] == Swapped(was, i, j);
    }

    /** `arc4_addrandom` */
    method AddRandom(dat: seq<Byte>)
      requires Valid() && dat != []
      modifies this, s
      ensures Valid() && Value() == Mixed(old(Value()), dat)
    {
      hide Permutation, Step;
      SchedulePermutes(Value().(i := Wrap(i as int - 1)), dat, 256);
      i := Wrap(i as int - 1);
      ghost var start := Value();
      for n := 0 to 256
        invariant s.Length == 256 && Value() == Schedule(start, dat, n)
      {
        Advance(dat[n % |dat|]);
      }
      j := i;
    }

    /** `arc4_getbyte` */
    method GetByte() returns (b: Byte)
      requires Valid()
      modifies this, s
      ensures Valid() && Value() == Step(old(Value()), 0)
      ensures i as int == (old(i) as int + 1) % 256 && j as int == (old(j) as int + old(s[..])[i] as int) % 256
      ensures s[..] == Swapped(old(s[..]), i, j)
      ensures b == s[Wrap(s[i] as int + s[j] as int)]
    {
      hide Permutation;
      StepPermutes(Value(), 0);
      Advance(0);
      b := s[Wrap(s[j] as int + s[i] as int)];
    }
  }
}

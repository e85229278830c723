/** Host names as the DNS code of libevent sees them: C strings whose labels are separated by dots. */
module DnsName {
  import opened Bytes

  const DOT: Byte := 46

  type Label = seq<Byte>

  /** `strchr (name, '.')`: the index of the first dot, or the length when there is none. */
  function DotIndex(name: seq<Byte>): (k: nat)
    ensures k <= |name| && DOT !in name[..k]
    ensures k < |name| ==> name[k] == DOT
  {
    if name == [] || name[0] == DOT then 0 else 1 + DotIndex(name[1..])
  }

  function Split(name: seq<Byte>): (labels: seq<Label>)
    ensures labels != []
    decreases |name|
  {
    var k := DotIndex(name);
    if k == |name| then [name] else [name[..k]] + Split(name[k + 1..])
  }

  function Join(labels: seq<Label>): seq<Byte> {
    if labels == [] then []
    else if |labels| == 1 then labels[0]
    else labels[0] + [DOT] + Join(labels[1..])
  }

  /** On the wire an empty label ends the name. */
  function UpToEmpty(labels: seq<Label>): seq<Label> {
    if labels == [] || labels[0] == [] then [] else [labels[0]] + UpToEmpty(labels[1..])
  }

  ghost predicate NoEmptyLabel(name: seq<Byte>) {
    forall l :: l in Split(name) ==> l != []
  }

  lemma CutAt(s: seq<Byte>, k: nat)
    requires k < |s|
    ensures s == s[..k] + [s[k]] + s[k + 1..]
  {
  }

  lemma SplitDotted(name: seq<Byte>)
    requires DotIndex(name) < |name|
    ensures Split(name) == [name[..DotIndex(name)]] + Split(name[DotIndex(name) + 1..])
  {
    hide DotIndex;
  }

  lemma {:induction false} JoinSplit(name: seq<Byte>)
    ensures Join(Split(name)) == name
    decreases |name|
  {
    var k := DotIndex(name);
    if k < |name| {
      var rest := Split(name[k + 1..]);
      JoinSplit(name[k + 1..]);
      CutAt(name, k);
      assert Split(name)[1..] == rest;
      assert Join(Split(name)) == name[..k] + [DOT] + Join(rest);
    }
  }

  lemma {:induction false} JoinAppend(labels: seq<Label>, l: Label)
    ensures Join(labels + [l]) == if labels == [] then l else Join(labels) + [DOT] + l
  {
    if |labels| == 1 {
      assert (labels + [l])[1..] == [l];
    } else if |labels| > 1 {
      JoinAppend(labels[1..], l);
      assert (labels + [l])[1..] == labels[1..] + [l];
      assert Join(labels + [l]) == labels[0] + [DOT] + (Join(labels[1..]) + [DOT] + l);
    }
  }

  lemma {:induction false} JoinMonotone(a: seq<Label>, b: seq<Label>)
    ensures |Join(a + b)| >= |Join(a)|
  {
    if a == [] {
    } else if |a| == 1 {
      assert (a + b)[0] == a[0];
    } else {
      JoinMonotone(a[1..], b);
      assert (a + b)[1..] == a[1..] + b;
    }
  }

  /** What a name becomes on the wire and back: the text before its first empty label, without a trailing dot. */
  function Canonical(name: seq<Byte>): seq<Byte> {
    Join(UpToEmpty(Split(name)))
  }

  lemma CanonicalIs(name: seq<Byte>)
    ensures Canonical(name) == Join(UpToEmpty(Split(name)))
  {
    hide Join, UpToEmpty, Split;
  }

  lemma CanonicalSingle(name: seq<Byte>)
    requires DotIndex(name) == |name|
    ensures Canonical(name) == name
  {
    assert UpToEmpty([name]) == if name == [] then [] else [name] + UpToEmpty([]);
    assert UpToEmpty([name]) == if name == [] then [] else [name];
  }

  lemma UpToEmptyCons(l: Label, labels: seq<Label>)
    ensures UpToEmpty([l] + labels) == if l == [] then [] else [l] + UpToEmpty(labels)
    ensures Join([l] + labels) == if labels == [] then l else l + [DOT] + Join(labels)
    ensures Join([l] + UpToEmpty(labels)) == if UpToEmpty(labels) == [] then l else l + [DOT] + Join(UpToEmpty(labels))
  {
    assert ([l] + labels)[1..] == labels;
    assert ([l] + UpToEmpty(labels))[1..] == UpToEmpty(labels);
  }

  lemma CanonicalDotted(name: seq<Byte>, head: Label, tail: seq<Byte>)
    requires DotIndex(name) < |name| && head == name[..DotIndex(name)] && tail == name[DotIndex(name) + 1..]
    ensures head == [] ==> Canonical(name) == []
    ensures head != [] && UpToEmpty(Split(tail)) == [] ==> Canonical(name) == head
    ensures head != [] && UpToEmpty(Split(tail)) != [] ==> Canonical(name) == head + [DOT] + Canonical(tail)
    ensures UpToEmpty(Split(name)) == if head == [] then [] else [head] + UpToEmpty(Split(tail))
  {
    hide *;
    SplitDotted(name);
    UpToEmptyCons(head, Split(tail));
    CanonicalIs(name);
    CanonicalIs(tail);
    JoinNothing();
  }

  lemma JoinNothing()
    ensures Join([]) == []
  {
  }

  lemma {:induction false} CanonicalShorter(name: seq<Byte>)
    ensures |Canonical(name)| <= |name|
    decreases |name|
  {
    hide Canonical, UpToEmpty, Join, Split;
    if DotIndex(name) == |name| {
      CanonicalSingle(name);
    } else {
      var head, tail := name[..DotIndex(name)], name[DotIndex(name) + 1..];
      CanonicalDotted(name, head, tail);
      CanonicalShorter(tail);
    }
  }

  lemma NoEmptySplit(name: seq<Byte>)
    requires DotIndex(name) < |name|
    ensures NoEmptyLabel(name) <==> name[..DotIndex(name)] != [] && NoEmptyLabel(name[DotIndex(name) + 1..])
  {
    var head, tail := name[..DotIndex(name)], Split(name[DotIndex(name) + 1..]);
    assert Split(name) == [head] + tail;
    assert head in [head] + tail;
    forall l | l in tail ensures l in [head] + tail {}
  }

  lemma EmptyRest(name: seq<Byte>)
    ensures UpToEmpty(Split(name)) == [] ==> !NoEmptyLabel(name)
    ensures name == [] ==> UpToEmpty(Split(name)) == []
  {
    var labels := Split(name);
    assert labels[0] in labels;
    assert labels[0] != [] ==> UpToEmpty(labels) == [labels[0]] + UpToEmpty(labels[1..]);
  }

  /** A name survives unchanged exactly when it is the root or has no empty label. */
  lemma {:induction false} CanonicalExact(name: seq<Byte>)
    ensures Canonical(name) == name <==> name == [] || NoEmptyLabel(name)
    decreases |name|
  {
    hide Canonical, UpToEmpty, Join;
    var k := DotIndex(name);
    if k == |name| {
      CanonicalSingle(name);
      assert Split(name) == [name];
    } else {
      hide NoEmptyLabel, Split;
      var tail := name[k + 1..];
      NoEmptySplit(name);
      CanonicalDotted(name, name[..k], tail);
      CanonicalExact(tail);
      EmptyRest(tail);
      CutAt(name, k);
      if UpToEmpty(Split(tail)) != [] && k > 0 {
        assert (name[..k] + [DOT] + Canonical(tail))[k + 1..] == Canonical(tail);
      }
    }
  }
}

/** What several modules share: optional values, the width of an unsigned int, and
    lists of numbers without repetition, as the queue.h lists are modelled. */
module Lists {

  /** One more than the largest unsigned int. */
  const WRAP: nat := 0x1_0000_0000

  /** Counting on from a count that wrapped. */
  lemma WrapNext(n: nat)
    ensures (n % WRAP + 1) % WRAP == (n + 1) % WRAP
  {
  }

  datatype Option<T> = None | Some(value: T)

  ghost predicate Distinct(s: seq<nat>) {
    forall i, j :: 0 <= i < j < |s| ==> s[i] != s[j]
  }

  ghost function Elems<T>(s: seq<T>): set<T> {
    set k | k in s
  }

  /** LIST_REMOVE */
  function Drop(s: seq<nat>, k: nat): seq<nat> {
    if s == [] then [] else if s[0] == k then s[1..] else [s[0]] + Drop(s[1..], k)
  }

  lemma JoinDistinct(a: seq<nat>, b: seq<nat>)
    requires Distinct(a) && Distinct(b) && forall k :: k in a ==> k !in b
    ensures Distinct(a + b)
  {
    assert forall i :: 0 <= i < |a| ==> a[i] in a;
    assert forall i :: 0 <= i < |b| ==> b[i] in b;
  }

  /** The first n of a moved behind f. */
  lemma RotateDistinct(a: seq<nat>, f: seq<nat>, n: nat)
    requires Distinct(a + f) && n <= |a|
    ensures Distinct(a[n..] + (f + a[..n]))
  {
    var w, z, m := a + f, a[n..] + (f + a[..n]), |a| - n;
    assert forall i :: 0 <= i < |z| ==> z[i] == w[if i < m + |f| then i + n else i - m - |f|];
  }

  lemma FirstOnly(s: seq<nat>)
    requires Distinct(s) && s != []
    ensures s[0] !in s[1..] && Distinct(s[1..]) && Elems(s) == {s[0]} + Elems(s[1..])
  {
    assert forall i :: 0 <= i < |s| - 1 ==> s[1..][i] == s[i + 1];
    assert forall k :: k in s <==> k == s[0] || k in s[1..];
  }

  lemma {:induction false} DropOne(s: seq<nat>, k: nat)
    requires Distinct(s)
    ensures Distinct(Drop(s, k)) && forall j :: j in Drop(s, k) <==> j in s && j != k
    ensures k in s ==> |Drop(s, k)| == |s| - 1
  {
    if s != [] {
      FirstOnly(s);
      if s[0] != k {
        DropOne(s[1..], k);
        JoinDistinct([s[0]], Drop(s[1..], k));
      }
      assert forall j :: j in s <==> j == s[0] || j in s[1..];
    }
  }
}

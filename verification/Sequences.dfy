/** Queues without repeated entries. */
module Sequences {
  ghost predicate NoDup(s: seq<nat>) {
    forall a, b :: 0 <= a < b < |s| ==> s[a] != s[b]
  }

  lemma {:induction false} Head(s: seq<nat>)
    requires NoDup(s) && s != []
    ensures NoDup(s[1..]) && s[0] !in s[1..]
    ensures forall t :: t in s[1..] <==> t in s && t != s[0]
  {
    assert s == [s[0]] + s[1..];
    forall b | 0 <= b < |s[1..]| ensures s[1..][b] != s[0] {}
  }

  lemma {:induction false} Appended(s: seq<nat>, t: nat)
    requires NoDup(s) && t !in s
    ensures NoDup(s + [t]) && forall u :: u in s + [t] <==> u in s || u == t
  {
    var r := s + [t];
    forall a, b | 0 <= a < b < |r| ensures r[a] != r[b] {
      assert r[a] in s;
    }
  }
}

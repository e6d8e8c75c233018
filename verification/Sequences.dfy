/** Facts about cutting and joining sequences. */
module Sequences {

  function Joined<T>(ss: seq<seq<T>>): seq<T> {
    if ss == [] then [] else ss[0] + Joined(ss[1..])
  }

  lemma JoinedNone<T>()
    ensures Joined<T>([]) == []
  {
  }

  lemma JoinedOne<T>(s: seq<T>)
    ensures Joined([s]) == s
  {
    assert [s][1..] == [];
  }

  lemma {:induction false} JoinedSplit<T>(ss: seq<seq<T>>, k: nat)
    requires k <= |ss|
    ensures Joined(ss) == Joined(ss[..k]) + Joined(ss[k..])
  {
    if k == 0 {
      assert ss[k..] == ss;
    } else {
      assert ss[..k][0] == ss[0] && ss[..k][1..] == ss[1..][..k - 1] && ss[k..] == ss[1..][k - 1..];
      JoinedSplit(ss[1..], k - 1);
    }
  }

  lemma JoinedAppend<T>(ss: seq<seq<T>>, k: nat)
    requires k < |ss|
    ensures Joined(ss[..k + 1]) == Joined(ss[..k]) + ss[k] && Joined(ss[k..]) == ss[k] + Joined(ss[k + 1..])
  {
    JoinedSplit(ss[..k + 1], k);
    assert ss[..k + 1][..k] == ss[..k] && ss[..k + 1][k..] == [ss[k]] && ss[k..][1..] == ss[k + 1..];
    JoinedOne(ss[k]);
  }

  lemma NothingBehind<T>(s: seq<T>)
    ensures s + [] == s
  {
  }

  lemma Reassociate<T>(a: seq<T>, b: seq<T>, c: seq<T>)
    ensures (a + b) + c == a + (b + c)
  {
  }

  lemma SliceOfSlice<T>(s: seq<T>, a: nat, b: nat, i: nat, j: nat)
    requires a <= b <= |s| && i <= j <= b - a
    ensures s[a..b][i..j] == s[a + i..a + j]
  {
    forall k | 0 <= k < j - i
      ensures s[a..b][i..j][k] == s[a + i..a + j][k]
    {
      assert s[a..b][i..j][k] == s[a..b][i + k] == s[a + i + k];
    }
  }
}

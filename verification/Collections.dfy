/** Small facts about options, sequences and finite sets that several modules need. */
module Collections {
  datatype Option<T> = None | Some(value: T)

  ghost function SetOf(s: seq<nat>): set<nat> {
    set x | x in s
  }

  ghost predicate NoDup(s: seq<nat>) {
    forall i, j | 0 <= i < j < |s| :: s[i] != s[j]
  }

  lemma {:induction false} NoDupSize(s: seq<nat>)
    requires NoDup(s)
    ensures |SetOf(s)| == |s|
  {
    if s != [] {
      var t := s[..|s| - 1];
      NoDupSize(t);
      assert SetOf(s) == SetOf(t) + {s[|s| - 1]};
    }
  }

  lemma SubsetSize(a: set<nat>, b: set<nat>)
    requires a <= b
    ensures |a| <= |b|
  {
    assert b == a + (b - a);
  }
}

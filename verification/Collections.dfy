/** Options, and sequences without repetitions. */
module Collections {

  datatype Option<+T> = None | Some(value: T)

  ghost predicate NoDup(s: seq<int>) {
    forall i, j :: 0 <= i < j < |s| ==> s[i] != s[j]
  }

  lemma NoDupTail(q: seq<int>)
    requires NoDup(q) && q != []
    ensures NoDup(q[1..])
    ensures forall p: int :: p in q[1..] <==> p in q && p != q[0]
  {
  }
}

/** Substrings: where one occurs first, and whether it occurs at all. */
module TextSearch {
  import opened Wrappers

  predicate OccursAt(s: string, sub: string, i: nat) {
    i + |sub| <= |s| && s[i..i + |sub|] == sub
  }

  /** The least index from `from` on at which `sub` occurs. */
  function Find(s: string, sub: string, from: nat): (r: Option<nat>)
    requires from <= |s|
    ensures r.None? ==> forall i: nat | from <= i :: !OccursAt(s, sub, i)
    ensures r.Some? ==> from <= r.value && OccursAt(s, sub, r.value)
    ensures r.Some? ==> forall i: nat | from <= i < r.value :: !OccursAt(s, sub, i)
    decreases |s| - from
  {
    if from + |sub| > |s| then None
    else if OccursAt(s, sub, from) then Some(from)
    else if from == |s| then None
    else Find(s, sub, from + 1)
  }

  predicate Contains(s: string, sub: string) { Find(s, sub, 0).Some? }

  lemma OccursMeansContains(s: string, sub: string, i: nat)
    requires OccursAt(s, sub, i)
    ensures Contains(s, sub)
  {
  }

  /** What a part of a text contains, the text contains. */
  lemma ContainsInside(a: string, b: string, c: string, sub: string)
    requires Contains(b, sub)
    ensures Contains(a + b + c, sub)
  {
    var i := Find(b, sub, 0).value;
    assert (a + b + c)[|a| + i..|a| + i + |sub|] == b[i..i + |sub|];
    OccursMeansContains(a + b + c, sub, |a| + i);
  }
}

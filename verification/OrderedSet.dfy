/** JavaScript's insertion-ordered sets of intent hashes, as sequences without repetition. */
module OrderedSet {

  /** An intent hash; only its identity matters here. */
  datatype Hash = Hash(hex: string)

  /** Deleting from an insertion-ordered set. */
  function Without(s: seq<Hash>, h: Hash): (r: seq<Hash>)
    ensures forall x :: x in r <==> x in s && x != h
  {
    if s == [] then []
    else if s[|s| - 1] == h then Without(s[..|s| - 1], h)
    else Without(s[..|s| - 1], h) + [s[|s| - 1]]
  }

  /** Adding to one: an element already there keeps its place. */
  function With(s: seq<Hash>, h: Hash): (r: seq<Hash>)
    ensures forall x :: x in r <==> x in s || x == h
  {
    if h in s then s else s + [h]
  }

  /** No element twice. */
  predicate Distinct(s: seq<Hash>) {
    s == [] || (Distinct(s[..|s| - 1]) && s[|s| - 1] !in s[..|s| - 1])
  }

  lemma {:induction false} DistinctSnoc(s: seq<Hash>, h: Hash)
    requires Distinct(s) && h !in s
    ensures Distinct(s + [h])
  {
    assert (s + [h])[..|s|] == s;
  }

  lemma {:induction false} DistinctPrefix(s: seq<Hash>, i: nat)
    requires Distinct(s) && i <= |s|
    ensures Distinct(s[..i])
  {
    if i == |s| {
      assert s[..i] == s;
    } else {
      assert s[..|s| - 1][..i] == s[..i];
      DistinctPrefix(s[..|s| - 1], i);
    }
  }

  lemma {:induction false} DistinctAt(s: seq<Hash>, i: nat, j: nat)
    requires Distinct(s) && i < j < |s|
    ensures s[i] != s[j] && s[j] !in s[..j]
  {
    DistinctPrefix(s, j + 1);
    assert s[..j + 1][..j] == s[..j];
    assert s[i] in s[..j];
  }

  lemma {:induction false} WithoutDistinct(s: seq<Hash>, h: Hash)
    requires Distinct(s)
    ensures Distinct(Without(s, h))
  {
    if s != [] {
      var m := |s| - 1;
      WithoutDistinct(s[..m], h);
      if s[m] != h { DistinctSnoc(Without(s[..m], h), s[m]); }
    }
  }

  lemma {:induction false} WithDistinct(s: seq<Hash>, h: Hash)
    requires Distinct(s)
    ensures Distinct(With(s, h))
  {
    if h !in s { DistinctSnoc(s, h); }
  }
}

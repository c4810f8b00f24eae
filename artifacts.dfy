/**
 * Flattening the files of an attribute's dependencies the way a LinkedHashSet
 * accumulates them: concatenated, duplicates dropped, first-seen order kept.
 */
module Artifacts {
  import opened Packages
  import opened Analysis

  /** The files to build of a dependency; one without a file provider contributes none. */
  function FilesOf(ct: ConfiguredTarget): seq<Artifact>
  {
    if ct.files.Some? then ct.files.value else []
  }

  /** The files of every dependency, concatenated in dependency order. */
  function Flatten(deps: seq<ConfiguredTarget>): seq<Artifact>
  {
    if |deps| == 0 then [] else Flatten(deps[..|deps| - 1]) + FilesOf(deps[|deps| - 1])
  }

  lemma {:induction false} FlattenMembership(deps: seq<ConfiguredTarget>, a: Artifact)
    ensures a in Flatten(deps) <==> exists i :: 0 <= i < |deps| && a in FilesOf(deps[i])
  {
    if |deps| > 0 {
      var init := deps[..|deps| - 1];
      FlattenMembership(init, a);
      if a in Flatten(deps) && a !in FilesOf(deps[|deps| - 1]) {
        var i :| 0 <= i < |init| && a in FilesOf(init[i]);
        assert deps[i] == init[i];
      }
      if exists i :: 0 <= i < |deps| && a in FilesOf(deps[i]) {
        var i :| 0 <= i < |deps| && a in FilesOf(deps[i]);
        if i < |deps| - 1 {
          assert init[i] == deps[i];
        }
      }
    }
  }

  predicate NoDuplicates(s: seq<Artifact>)
  {
    forall i, j :: 0 <= i < j < |s| ==> s[i] != s[j]
  }

  /** `s` with every element after its first occurrence removed. */
  function Dedup(s: seq<Artifact>): (r: seq<Artifact>)
    ensures NoDuplicates(r)
    ensures forall x :: x in r <==> x in s
    ensures |r| <= |s|
  {
    if |s| == 0 then []
    else
      var d := Dedup(s[..|s| - 1]);
      if s[|s| - 1] in d then d else d + [s[|s| - 1]]
  }

  /** The position of the first occurrence of `x` in `s`. */
  function FirstIndex(s: seq<Artifact>, x: Artifact): (i: nat)
    requires x in s
    ensures i < |s| && s[i] == x && x !in s[..i]
  {
    if s[0] == x then 0
    else
      var k := FirstIndex(s[1..], x);
      assert s[1..][..k] == s[1..k + 1];
      1 + k
  }

  lemma FirstIndexUnique(s: seq<Artifact>, x: Artifact, k: nat)
    requires k < |s| && s[k] == x && x !in s[..k]
    ensures FirstIndex(s, x) == k
  {
  }

  /** Appending an element does not move the first occurrence of an earlier one. */
  lemma FirstIndexAppend(s: seq<Artifact>, x: Artifact, y: Artifact)
    requires y in s
    ensures FirstIndex(s + [x], y) == FirstIndex(s, y)
  {
    var k := FirstIndex(s, y);
    assert (s + [x])[..k] == s[..k];
    FirstIndexUnique(s + [x], y, k);
  }

  /**
   * Dedup keeps first-seen order: an element listed before another was first
   * seen before it.
   */
  lemma {:induction false} DedupKeepsFirstSeenOrder(s: seq<Artifact>)
    ensures forall i, j :: 0 <= i < j < |Dedup(s)| ==>
      FirstIndex(s, Dedup(s)[i]) < FirstIndex(s, Dedup(s)[j])
  {
    if |s| > 0 {
      var p, x := s[..|s| - 1], s[|s| - 1];
      assert s == p + [x];
      var d := Dedup(p);
      DedupKeepsFirstSeenOrder(p);
      forall i, j | 0 <= i < j < |Dedup(s)|
        ensures FirstIndex(s, Dedup(s)[i]) < FirstIndex(s, Dedup(s)[j])
      {
        var r := Dedup(s);
        FirstIndexAppend(p, x, r[i]);
        if j < |d| {
          FirstIndexAppend(p, x, r[j]);
        } else {
          assert r[j] == x && x !in p;
          assert s[..|p|] == p;
          FirstIndexUnique(s, x, |p|);
        }
      }
    }
  }

  /** A sequence without duplicates is its own Dedup. */
  lemma {:induction false} DedupOfDistinct(s: seq<Artifact>)
    requires NoDuplicates(s)
    ensures Dedup(s) == s
  {
    if |s| > 0 {
      var p := s[..|s| - 1];
      assert NoDuplicates(p);
      DedupOfDistinct(p);
      assert s[|s| - 1] !in p;
      assert p + [s[|s| - 1]] == s;
    }
  }

  /** One more element: Dedup keeps it exactly when it has not been seen yet. */
  lemma DedupAppend(p: seq<Artifact>, x: Artifact)
    ensures Dedup(p + [x]) == if x in p then Dedup(p) else Dedup(p) + [x]
  {
    assert (p + [x])[..|p|] == p;
  }

  /** The step the set accumulation takes: the element is added exactly when the set lacks it. */
  lemma DedupStep(p: seq<Artifact>, x: Artifact, d: seq<Artifact>)
    requires d == Dedup(p)
    ensures Dedup(p + [x]) == if x in d then d else d + [x]
  {
    DedupAppend(p, x);
  }

  /** The files of `arts` that match `types`, in order. */
  function FilterByType(arts: seq<Artifact>, types: FileTypeSet): (r: seq<Artifact>)
    ensures forall a :: a in r <==> a in arts && MatchesFile(types, a.filename)
    ensures |r| <= |arts|
  {
    if |arts| == 0 then []
    else if MatchesFile(types, arts[0].filename) then [arts[0]] + FilterByType(arts[1..], types)
    else FilterByType(arts[1..], types)
  }

  /** The tail of a sequence without duplicates has none, and lacks the head. */
  lemma NoDuplicatesTail(s: seq<Artifact>)
    requires |s| > 0 && NoDuplicates(s)
    ensures NoDuplicates(s[1..]) && s[0] !in s[1..]
  {
    var t := s[1..];
    forall i, j | 0 <= i < j < |t|
      ensures t[i] != t[j]
    {
      assert t[i] == s[i + 1] && t[j] == s[j + 1];
    }
    forall k | 0 <= k < |t|
      ensures t[k] != s[0]
    {
      assert t[k] == s[k + 1];
    }
  }

  /** Filtering an input without duplicates gives none. */
  lemma {:induction false} FilterByTypeNoDuplicates(arts: seq<Artifact>, types: FileTypeSet)
    requires NoDuplicates(arts)
    ensures NoDuplicates(FilterByType(arts, types))
  {
    if |arts| > 0 {
      NoDuplicatesTail(arts);
      FilterByTypeNoDuplicates(arts[1..], types);
      var rt := FilterByType(arts[1..], types);
      if MatchesFile(types, arts[0].filename) {
        var r := [arts[0]] + rt;
        forall i, j | 0 <= i < j < |r|
          ensures r[i] != r[j]
        {
          assert r[j] == rt[j - 1];
          if i > 0 {
            assert r[i] == rt[i - 1];
          }
        }
      }
    }
  }

  /**
   * Filtering keeps the artifacts in their order: filtering a concatenation
   * filters its parts in turn, and a single artifact is kept exactly when it
   * matches, so every kept artifact stays where the input had it.
   */
  lemma {:induction false} FilterByTypeAppend(a: seq<Artifact>, b: seq<Artifact>, types: FileTypeSet)
    ensures FilterByType(a + b, types) == FilterByType(a, types) + FilterByType(b, types)
  {
    if |a| > 0 {
      assert (a + b)[1..] == a[1..] + b;
      assert (a + b)[0] == a[0];
      FilterByTypeAppend(a[1..], b, types);
    } else {
      assert a + b == b;
    }
  }

  /** A single artifact passes the filter exactly when it matches. */
  lemma FilterByTypeSingle(x: Artifact, types: FileTypeSet)
    ensures FilterByType([x], types) == if MatchesFile(types, x.filename) then [x] else []
  {
    assert [x][1..] == [];
  }

}

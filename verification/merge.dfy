/** The merge step of the store's `fetchCafes`: database cafes first, in
    their order, then each Overpass cafe whose name no cafe already in the
    growing list carries. Names are compared exactly (case-sensitive), and
    coordinates play no part. */
module CafeMerge {
  import opened Types

  /** The set of names carried by a list of cafes. */
  function Names(cafes: seq<CafeWithPrices>): set<string>
  {
    set c | c in cafes :: c.Name()
  }

  lemma NamesAppend(a: seq<CafeWithPrices>, b: seq<CafeWithPrices>)
    ensures Names(a + b) == Names(a) + Names(b)
  {
    forall n | n in Names(a + b) ensures n in Names(a) + Names(b) {
      var c :| c in a + b && c.Name() == n;
    }
    forall n | n in Names(a) + Names(b) ensures n in Names(a + b) {
      if n in Names(a) {
        var c :| c in a && c.Name() == n;
        assert c in a + b;
      } else {
        var c :| c in b && c.Name() == n;
        assert c in a + b;
      }
    }
  }

  /** Reference definition, independent of the growing list: the Overpass
      cafe at index `i` is kept exactly when its name is neither a database
      name nor the name of an earlier Overpass cafe. */
  predicate KeptAt(db: seq<CafeWithPrices>, osm: seq<CafeWithPrices>, i: nat)
    requires i < |osm|
  {
    osm[i].Name() !in Names(db) + Names(osm[..i])
  }

  /** The Overpass cafes kept by the merge, in their input order. */
  function Survivors(db: seq<CafeWithPrices>, osm: seq<CafeWithPrices>): seq<CafeWithPrices>
    decreases |osm|
  {
    if |osm| == 0 then []
    else
      var k := |osm| - 1;
      Survivors(db, osm[..k]) + (if KeptAt(db, osm, k) then [osm[k]] else [])
  }

  /** `a` can be obtained from `b` by deleting elements: relative order kept. */
  ghost predicate Subsequence<T>(a: seq<T>, b: seq<T>)
    decreases |b|
  {
    |a| <= |b| &&
    (|a| == 0 ||
     (a[|a| - 1] == b[|b| - 1] && Subsequence(a[..|a| - 1], b[..|b| - 1])) ||
     Subsequence(a, b[..|b| - 1]))
  }

  /** No two cafes of the list share a name. */
  ghost predicate DistinctNames(cafes: seq<CafeWithPrices>)
  {
    forall i, j :: 0 <= i < j < |cafes| ==> cafes[i].Name() != cafes[j].Name()
  }

  lemma SubsequenceBothExtend<T>(a: seq<T>, b: seq<T>, x: T)
    requires Subsequence(a, b)
    ensures Subsequence(a + [x], b + [x])
  {
    var a', b' := a + [x], b + [x];
    assert a'[..|a'| - 1] == a;
    assert b'[..|b'| - 1] == b;
  }

  lemma SubsequenceRightExtend<T>(a: seq<T>, b: seq<T>, x: T)
    requires Subsequence(a, b)
    ensures Subsequence(a, b + [x])
  {
    var b' := b + [x];
    assert b'[..|b'| - 1] == b;
  }

  /** The survivors are an order-preserving selection of the Overpass list. */
  lemma {:induction false} SurvivorsSubsequence(db: seq<CafeWithPrices>, osm: seq<CafeWithPrices>)
    ensures Subsequence(Survivors(db, osm), osm)
    decreases |osm|
  {
    if |osm| > 0 {
      var k := |osm| - 1;
      var before := Survivors(db, osm[..k]);
      SurvivorsSubsequence(db, osm[..k]);
      assert osm[..k] + [osm[k]] == osm;
      if KeptAt(db, osm, k) {
        SubsequenceBothExtend(before, osm[..k], osm[k]);
        assert Survivors(db, osm) == before + [osm[k]];
      } else {
        SubsequenceRightExtend(before, osm[..k], osm[k]);
        assert Survivors(db, osm) == before;
      }
    }
  }

  /** Together with the database names, the survivors' names cover every
      Overpass name, and none of them is a database name. */
  lemma {:induction false} SurvivorsNames(db: seq<CafeWithPrices>, osm: seq<CafeWithPrices>)
    ensures Names(Survivors(db, osm)) == Names(osm) - Names(db)
    decreases |osm|
  {
    if |osm| > 0 {
      var k := |osm| - 1;
      var x := osm[k];
      var prefix := osm[..k];
      var before := Survivors(db, prefix);
      SurvivorsNames(db, prefix);
      assert osm == prefix + [x];
      NamesAppend(prefix, [x]);
      assert Names([x]) == {x.Name()};
      assert Names(osm) == Names(prefix) + {x.Name()};
      if KeptAt(db, osm, k) {
        assert Survivors(db, osm) == before + [x];
        NamesAppend(before, [x]);
        assert Names(Survivors(db, osm)) == Names(before) + {x.Name()};
      } else {
        assert Survivors(db, osm) == before + [];
        assert before + [] == before;
        assert x.Name() in Names(db) + Names(prefix);
      }
    }
  }

  /** Appending a cafe with a new name keeps the names distinct. */
  lemma DistinctAppend(cafes: seq<CafeWithPrices>, x: CafeWithPrices)
    requires DistinctNames(cafes) && x.Name() !in Names(cafes)
    ensures DistinctNames(cafes + [x])
  {
    var after := cafes + [x];
    forall i, j | 0 <= i < j < |after|
      ensures after[i].Name() != after[j].Name()
    {
      if j == |cafes| {
        assert after[i] in cafes;
      }
    }
  }

  /** No two survivors share a name. */
  lemma {:induction false} SurvivorsDistinct(db: seq<CafeWithPrices>, osm: seq<CafeWithPrices>)
    ensures DistinctNames(Survivors(db, osm))
    decreases |osm|
  {
    if |osm| > 0 {
      var k := |osm| - 1;
      var prefix := osm[..k];
      var before := Survivors(db, prefix);
      SurvivorsDistinct(db, prefix);
      if KeptAt(db, osm, k) {
        SurvivorsNames(db, prefix);
        DistinctAppend(before, osm[k]);
        assert Survivors(db, osm) == before + [osm[k]];
      } else {
        assert Survivors(db, osm) == before;
      }
    }
  }

  /** A list in which every Overpass name is already present keeps nothing. */
  lemma {:induction false} NothingSurvivesKnownNames(db: seq<CafeWithPrices>, osm: seq<CafeWithPrices>)
    requires Names(osm) <= Names(db)
    ensures Survivors(db, osm) == []
    decreases |osm|
  {
    if |osm| > 0 {
      var k := |osm| - 1;
      assert osm[k] in osm;
      assert Names(osm[..k]) <= Names(osm) by {
        forall n | n in Names(osm[..k]) ensures n in Names(osm) {
          var c :| c in osm[..k] && c.Name() == n;
          assert c in osm;
        }
      }
      NothingSurvivesKnownNames(db, osm[..k]);
    }
  }

  /** The merged list `fetchCafes` stores. */
  function Merge(db: seq<CafeWithPrices>, osm: seq<CafeWithPrices>): (merged: seq<CafeWithPrices>)
    ensures |db| <= |merged| <= |db| + |osm|
    ensures merged[..|db|] == db
    ensures Names(merged) == Names(db) + Names(osm)
    ensures forall k :: |db| <= k < |merged| ==> merged[k] in osm && merged[k].Name() !in Names(db)
    ensures forall i, j :: |db| <= i < j < |merged| ==> merged[i].Name() != merged[j].Name()
  {
    var kept := Survivors(db, osm);
    SurvivorsSubsequence(db, osm);
    SurvivorsNames(db, osm);
    SurvivorsDistinct(db, osm);
    AppendKept(db, kept, osm);
    db + kept
  }

  /** Appending an order-preserving, name-distinct selection of new names to
      the database list gives a list with the merge's properties. */
  lemma AppendKept(db: seq<CafeWithPrices>, kept: seq<CafeWithPrices>, osm: seq<CafeWithPrices>)
    requires Subsequence(kept, osm)
    requires Names(kept) == Names(osm) - Names(db)
    requires DistinctNames(kept)
    ensures |db| <= |db + kept| <= |db| + |osm|
    ensures (db + kept)[..|db|] == db
    ensures Names(db + kept) == Names(db) + Names(osm)
    ensures forall k :: |db| <= k < |db + kept| ==> (db + kept)[k] in osm && (db + kept)[k].Name() !in Names(db)
    ensures forall i, j :: |db| <= i < j < |db + kept| ==> (db + kept)[i].Name() != (db + kept)[j].Name()
  {
    var merged := db + kept;
    assert merged[..|db|] == db;
    NamesAppend(db, kept);
    SubsequenceMembers(kept, osm);
    forall k | |db| <= k < |merged|
      ensures merged[k] in osm && merged[k].Name() !in Names(db)
    {
      assert merged[k] == kept[k - |db|];
      assert kept[k - |db|] in kept;
    }
    forall i, j | |db| <= i < j < |merged|
      ensures merged[i].Name() != merged[j].Name()
    {
      assert merged[i] == kept[i - |db|] && merged[j] == kept[j - |db|];
    }
  }

  lemma {:induction false} SubsequenceMembers<T>(a: seq<T>, b: seq<T>)
    requires Subsequence(a, b)
    ensures forall x :: x in a ==> x in b
    decreases |b|
  {
    if |a| > 0 {
      var k := |b| - 1;
      if a[|a| - 1] == b[k] && Subsequence(a[..|a| - 1], b[..k]) {
        SubsequenceMembers(a[..|a| - 1], b[..k]);
        assert a == a[..|a| - 1] + [a[|a| - 1]];
        assert b == b[..k] + [b[k]];
      } else {
        SubsequenceMembers(a, b[..k]);
        assert b == b[..k] + [b[k]];
      }
    }
  }

  /** The merged list keeps the Overpass survivors in their input order. */
  lemma MergeKeepsOverpassOrder(db: seq<CafeWithPrices>, osm: seq<CafeWithPrices>)
    ensures Subsequence(Merge(db, osm)[|db|..], osm)
  {
    SurvivorsSubsequence(db, osm);
    assert Merge(db, osm)[|db|..] == Survivors(db, osm);
  }

  /** Merging the merged list again with the same Overpass list adds nothing. */
  lemma MergeIdempotent(db: seq<CafeWithPrices>, osm: seq<CafeWithPrices>)
    ensures Merge(Merge(db, osm), osm) == Merge(db, osm)
  {
    var merged := Merge(db, osm);
    NothingSurvivesKnownNames(merged, osm);
    assert Merge(merged, osm) == merged + [];
  }

  /** A database cafe always shadows an Overpass cafe of the same name: no
      cafe after the database prefix carries a database name. */
  lemma DatabaseWins(db: seq<CafeWithPrices>, osm: seq<CafeWithPrices>, name: string)
    requires name in Names(db)
    ensures forall k :: 0 <= k < |Merge(db, osm)| && Merge(db, osm)[k].Name() == name ==> k < |db|
  {
  }

  lemma SameKeysNames(a: seq<CafeWithPrices>, b: seq<CafeWithPrices>)
    requires SameKeys(a, b)
    ensures Names(a) == Names(b)
  {
    forall n | n in Names(a) ensures n in Names(b) {
      var i :| 0 <= i < |a| && a[i].Name() == n;
      assert b[i] in b;
    }
    forall n | n in Names(b) ensures n in Names(a) {
      var i :| 0 <= i < |b| && b[i].Name() == n;
      assert a[i] in a;
    }
  }

  /** The survivors depend only on the names: Overpass lists with the same
      ids and names keep the same cafes, by id and name. */
  lemma {:induction false} SurvivorsSameKeys(db: seq<CafeWithPrices>, o1: seq<CafeWithPrices>, o2: seq<CafeWithPrices>)
    requires SameKeys(o1, o2)
    ensures SameKeys(Survivors(db, o1), Survivors(db, o2))
    decreases |o1|
  {
    if |o1| > 0 {
      var k := |o1| - 1;
      assert SameKeys(o1[..k], o2[..k]);
      SurvivorsSameKeys(db, o1[..k], o2[..k]);
      SameKeysNames(o1[..k], o2[..k]);
      assert KeptAt(db, o1, k) == KeptAt(db, o2, k);
    }
  }

  /** Merging against Overpass lists with the same ids and names stores the
      same cafes, by id and name, in the same order. */
  lemma MergeSameKeys(db: seq<CafeWithPrices>, o1: seq<CafeWithPrices>, o2: seq<CafeWithPrices>)
    requires SameKeys(o1, o2)
    ensures SameKeys(Merge(db, o1), Merge(db, o2))
  {
    var s1, s2 := Survivors(db, o1), Survivors(db, o2);
    SurvivorsSameKeys(db, o1, o2);
    SameKeysPrefix(db, s1, s2);
    assert Merge(db, o1) == db + s1;
    assert Merge(db, o2) == db + s2;
  }

  /** A common prefix keeps two lists equal by id and name. */
  lemma SameKeysPrefix(db: seq<CafeWithPrices>, a: seq<CafeWithPrices>, b: seq<CafeWithPrices>)
    requires SameKeys(a, b)
    ensures SameKeys(db + a, db + b)
  {
    forall i | 0 <= i < |db + a|
      ensures (db + a)[i].cafe.id == (db + b)[i].cafe.id && (db + a)[i].Name() == (db + b)[i].Name()
    {
      if i >= |db| {
        assert (db + a)[i] == a[i - |db|] && (db + b)[i] == b[i - |db|];
      }
    }
  }

  /** Names are compared exactly: two cafes whose names differ only in
      letter case both end up in the merged list. */
  lemma CaseSensitiveNames(dbCafe: CafeWithPrices, osmCafe: CafeWithPrices)
    requires dbCafe.Name() == "Lab Coffee" && osmCafe.Name() == "lab coffee"
    ensures Merge([dbCafe], [osmCafe]) == [dbCafe, osmCafe]
  {
    assert Names([dbCafe]) == {"Lab Coffee"};
    assert [osmCafe][..0] == [];
    assert Survivors([dbCafe], [osmCafe][..0]) == [];
    assert KeptAt([dbCafe], [osmCafe], 0);
  }

  /** Coordinates play no part: an Overpass cafe named like a database cafe
      is dropped wherever it lies. */
  lemma SameNameDroppedAnywhere(dbCafe: CafeWithPrices, osmCafe: CafeWithPrices)
    requires dbCafe.Name() == osmCafe.Name()
    ensures Merge([dbCafe], [osmCafe]) == [dbCafe]
  {
    assert [osmCafe][..0] == [];
    assert Survivors([dbCafe], [osmCafe][..0]) == [];
    assert dbCafe in [dbCafe];
    assert !KeptAt([dbCafe], [osmCafe], 0);
  }

  // ---------------------------------------------------------------------
  // The loop the store runs, checked against the reference definition.
  // ---------------------------------------------------------------------

  /** One step of the store's loop: the next Overpass cafe is kept exactly
      when its name is missing from the list built so far. */
  lemma SurvivorsStep(db: seq<CafeWithPrices>, osm: seq<CafeWithPrices>, i: nat)
    requires i < |osm|
    ensures var built := db + Survivors(db, osm[..i]);
      Survivors(db, osm[..i + 1]) ==
        Survivors(db, osm[..i]) + (if osm[i].Name() in Names(built) then [] else [osm[i]])
  {
    SurvivorsNames(db, osm[..i]);
    NamesAppend(db, Survivors(db, osm[..i]));
    assert osm[..i + 1][..i] == osm[..i];
    assert KeptAt(db, osm[..i + 1], i) <==> KeptAt(db, osm, i);
  }

  /** `combinedCafes.find(c => c.name === name)` succeeds. */
  method ContainsName(cafes: seq<CafeWithPrices>, name: string) returns (found: bool)
    ensures found <==> name in Names(cafes)
  {
    var i := 0;
    while i < |cafes|
      invariant 0 <= i <= |cafes|
      invariant forall j :: 0 <= j < i ==> cafes[j].Name() != name
    {
      if cafes[i].Name() == name {
        assert cafes[i] in cafes;
        return true;
      }
      i := i + 1;
    }
    return false;
  }

  /** The store's merge loop: copy the database list, then push each Overpass
      cafe whose name is not found in the list built so far. */
  method MergeCafes(db: seq<CafeWithPrices>, osm: seq<CafeWithPrices>) returns (combined: seq<CafeWithPrices>)
    ensures combined == Merge(db, osm)
  {
    combined := db;
    var i := 0;
    while i < |osm|
      invariant 0 <= i <= |osm|
      invariant combined == db + Survivors(db, osm[..i])
    {
      var found := ContainsName(combined, osm[i].Name());
      SurvivorsStep(db, osm, i);
      if !found {
        combined := combined + [osm[i]];
      }
      i := i + 1;
    }
    assert osm[..|osm|] == osm;
  }
}

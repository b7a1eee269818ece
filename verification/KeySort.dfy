/**
 * Sorting entries by key. Every harness sorts with its language's library sort
 * and a byte comparison; all that is used of it is that the result is a sorted
 * rearrangement, which `SortedIsUnique` shows to leave no choice.
 */
module KeySort {
  import opened JsonText
  import opened Utf8Order

  /** Keys strictly increase in the byte order of their UTF-8 encodings. */
  ghost predicate StrictKeys<T>(fs: seq<Field<T>>) {
    forall i, j :: 0 <= i < j < |fs| ==> Less(Encode(fs[i].key), Encode(fs[j].key))
  }

  ghost predicate DistinctKeys<T>(fs: seq<Field<T>>) {
    forall i, j :: 0 <= i < j < |fs| ==> fs[i].key != fs[j].key
  }

  function Insert<T>(f: Field<T>, fs: seq<Field<T>>): seq<Field<T>> {
    if fs == [] || Less(Encode(f.key), Encode(fs[0].key)) then [f] + fs
    else [fs[0]] + Insert(f, fs[1..])
  }

  function Sort<T>(fs: seq<Field<T>>): seq<Field<T>> {
    if fs == [] then [] else Insert(fs[0], Sort(fs[1..]))
  }

  lemma {:induction false} InsertContents<T>(f: Field<T>, fs: seq<Field<T>>)
    ensures multiset(Insert(f, fs)) == multiset{f} + multiset(fs)
  {
    if fs == [] || Less(Encode(f.key), Encode(fs[0].key)) {
    } else {
      InsertContents(f, fs[1..]);
      assert fs == [fs[0]] + fs[1..];
    }
  }

  lemma {:induction false} SortContents<T>(fs: seq<Field<T>>)
    ensures multiset(Sort(fs)) == multiset(fs)
  {
    if fs != [] {
      SortContents(fs[1..]);
      InsertContents(fs[0], Sort(fs[1..]));
      assert fs == [fs[0]] + fs[1..];
    }
  }

  lemma {:induction false} InsertStrict<T>(f: Field<T>, fs: seq<Field<T>>)
    requires StrictKeys(fs) && forall i :: 0 <= i < |fs| ==> fs[i].key != f.key
    ensures StrictKeys(Insert(f, fs))
  {
    if fs == [] {
    } else if Less(Encode(f.key), Encode(fs[0].key)) {
      forall j | 0 <= j < |fs| ensures Less(Encode(f.key), Encode(fs[j].key)) {
        if j > 0 { LessTransitive(Encode(f.key), Encode(fs[0].key), Encode(fs[j].key)); }
      }
    } else {
      var tail := Insert(f, fs[1..]);
      InsertStrict(f, fs[1..]);
      InsertContents(f, fs[1..]);
      LessTotal(Encode(fs[0].key), Encode(f.key));
      if Encode(fs[0].key) == Encode(f.key) { EncodeInjective(fs[0].key, f.key); }
      forall j | 0 <= j < |tail| ensures Less(Encode(fs[0].key), Encode(tail[j].key)) {
        assert tail[j] in multiset(tail);
        assert tail[j] == f || tail[j] in fs[1..];
      }
    }
  }

  /** Entries with distinct keys are sorted into strictly increasing key order. */
  lemma {:induction false} SortStrict<T>(fs: seq<Field<T>>)
    requires DistinctKeys(fs)
    ensures StrictKeys(Sort(fs))
  {
    if fs != [] {
      var tail := Sort(fs[1..]);
      SortStrict(fs[1..]);
      SortContents(fs[1..]);
      forall i | 0 <= i < |tail| ensures tail[i].key != fs[0].key {
        assert tail[i] in multiset(tail);
        assert tail[i] in fs[1..];
      }
      InsertStrict(fs[0], tail);
    }
  }

  lemma SortMembers<T>(fs: seq<Field<T>>)
    ensures |Sort(fs)| == |fs|
    ensures forall f :: f in Sort(fs) <==> f in fs
  {
    SortContents(fs);
    assert |multiset(Sort(fs))| == |multiset(fs)|;
    assert forall f :: f in Sort(fs) <==> f in multiset(Sort(fs));
    assert forall f :: f in fs <==> f in multiset(fs);
  }

  lemma StrictAreDistinct<T>(fs: seq<Field<T>>)
    requires StrictKeys(fs)
    ensures DistinctKeys(fs)
  {
    forall i, j | 0 <= i < j < |fs| ensures fs[i].key != fs[j].key {
      LessIrreflexive(Encode(fs[i].key));
    }
  }

  /** Two strictly sorted sequences with the same entries are the same sequence. */
  lemma {:induction false} SortedIsUnique<T>(a: seq<Field<T>>, b: seq<Field<T>>)
    requires StrictKeys(a) && StrictKeys(b)
    requires forall f :: f in a <==> f in b
    ensures a == b
  {
    assert a != [] ==> a[0] in b;
    assert b != [] ==> b[0] in a;
    if a != [] && b != [] {
      SameFirst(a, b);
      StrictAreDistinct(a);
      StrictAreDistinct(b);
      assert a == [a[0]] + a[1..] && b == [b[0]] + b[1..];
      forall f ensures f in a[1..] <==> f in b[1..] {
        assert f in a[1..] ==> f in a && f != a[0];
        assert f in b[1..] ==> f in b && f != b[0];
      }
      SortedIsUnique(a[1..], b[1..]);
    }
  }

  lemma SameFirst<T>(a: seq<Field<T>>, b: seq<Field<T>>)
    requires StrictKeys(a) && StrictKeys(b) && a != [] && b != []
    requires forall f :: f in a <==> f in b
    ensures a[0] == b[0]
  {
    assert a[0] in b && b[0] in a;
    var i :| 0 <= i < |b| && b[i] == a[0];
    var j :| 0 <= j < |a| && a[j] == b[0];
    if i > 0 && j > 0 { LessAsymmetric(Encode(b[0].key), Encode(a[0].key)); }
  }

  /** Whatever algorithm sorts them, entries with distinct keys end up as `Sort` has them. */
  lemma AnySortIsSort<T>(fs: seq<Field<T>>, out: seq<Field<T>>)
    requires DistinctKeys(fs)
    requires multiset(out) == multiset(fs) && StrictKeys(out)
    ensures out == Sort(fs)
  {
    SortStrict(fs);
    SortMembers(fs);
    assert forall f :: f in out <==> f in multiset(out);
    assert forall f :: f in fs <==> f in multiset(fs);
    SortedIsUnique(out, Sort(fs));
  }
}

// Sorted sequences of entries: what a tree holds, from left to right, and the finite map it stands for.
module SortedEntries {
  import opened Bytes
  import opened ByteOrder
  import opened Outcomes

  datatype RowId = RowId(page: u32, slot: u16)
  datatype Entry = Entry(key: Key, row: RowId)

  ghost predicate Sorted(es: seq<Entry>) {
    forall i, j :: 0 <= i < j < |es| ==> Less(es[i].key, es[j].key)
  }

  ghost predicate AllBelow(es: seq<Entry>, key: Key) {
    forall i :: 0 <= i < |es| ==> Less(es[i].key, key)
  }

  ghost predicate AllAbove(es: seq<Entry>, key: Key) {
    forall i :: 0 <= i < |es| ==> Less(key, es[i].key)
  }

  // Replaces the row of key, or inserts the entry where it belongs.
  ghost function PutEntry(es: seq<Entry>, key: Key, row: RowId): seq<Entry> {
    if es == [] then [Entry(key, row)]
    else if Less(es[0].key, key) then [es[0]] + PutEntry(es[1..], key, row)
    else if es[0].key == key then [Entry(key, row)] + es[1..]
    else [Entry(key, row)] + es
  }

  ghost function RemoveEntry(es: seq<Entry>, key: Key): seq<Entry> {
    if es == [] then []
    else if es[0].key == key then es[1..]
    else [es[0]] + RemoveEntry(es[1..], key)
  }

  ghost function Find(es: seq<Entry>, key: Key): Option<RowId> {
    if es == [] then None
    else if es[0].key == key then Some(es[0].row)
    else Find(es[1..], key)
  }

  // ---------- only the part around the key matters ----------

  lemma NotBelow(key: Key, k: Key)
    requires Less(key, k)
    ensures !Less(k, key) && k != key
  {
    LessIrreflexive(key);
    if Less(k, key) {
      LessTransitive(key, k, key);
    }
  }

  lemma {:induction false} PutAfter(a: seq<Entry>, m: seq<Entry>, key: Key, row: RowId)
    requires AllBelow(a, key)
    ensures PutEntry(a + m, key, row) == a + PutEntry(m, key, row)
  {
    hide Less;
    if a == [] {
      assert a + m == m && a + PutEntry(m, key, row) == PutEntry(m, key, row);
    } else {
      assert (a + m)[1..] == a[1..] + m;
      PutAfter(a[1..], m, key, row);
      assert a + PutEntry(m, key, row) == [a[0]] + (a[1..] + PutEntry(m, key, row));
    }
  }

  lemma {:induction false} PutBefore(m: seq<Entry>, b: seq<Entry>, key: Key, row: RowId)
    requires AllAbove(b, key)
    ensures PutEntry(m + b, key, row) == PutEntry(m, key, row) + b
  {
    hide Less;
    if m == [] {
      assert m + b == b;
      if b != [] {
        NotBelow(key, b[0].key);
      }
    } else {
      assert (m + b)[1..] == m[1..] + b;
      PutBefore(m[1..], b, key, row);
    }
  }

  lemma PutBetween(a: seq<Entry>, m: seq<Entry>, b: seq<Entry>, key: Key, row: RowId)
    requires AllBelow(a, key) && AllAbove(b, key)
    ensures PutEntry(a + m + b, key, row) == a + PutEntry(m, key, row) + b
  {
    PutBefore(a + m, b, key, row);
    PutAfter(a, m, key, row);
  }

  lemma {:induction false} RemoveAfter(a: seq<Entry>, m: seq<Entry>, key: Key)
    requires AllBelow(a, key)
    ensures RemoveEntry(a + m, key) == a + RemoveEntry(m, key)
  {
    hide Less;
    if a == [] {
      assert a + m == m && a + RemoveEntry(m, key) == RemoveEntry(m, key);
    } else {
      LessIrreflexive(key);
      assert (a + m)[1..] == a[1..] + m;
      RemoveAfter(a[1..], m, key);
      assert a + RemoveEntry(m, key) == [a[0]] + (a[1..] + RemoveEntry(m, key));
    }
  }

  lemma {:induction false} RemoveBefore(m: seq<Entry>, b: seq<Entry>, key: Key)
    requires AllAbove(b, key)
    ensures RemoveEntry(m + b, key) == RemoveEntry(m, key) + b
  {
    hide Less;
    if m == [] {
      assert m + b == b;
      if b != [] {
        NotBelow(key, b[0].key);
        assert b[1..] == m + b[1..];
        RemoveBefore([], b[1..], key);
      }
    } else {
      assert (m + b)[1..] == m[1..] + b;
      RemoveBefore(m[1..], b, key);
    }
  }

  lemma RemoveBetween(a: seq<Entry>, m: seq<Entry>, b: seq<Entry>, key: Key)
    requires AllBelow(a, key) && AllAbove(b, key)
    ensures RemoveEntry(a + m + b, key) == a + RemoveEntry(m, key) + b
  {
    RemoveBefore(a + m, b, key);
    RemoveAfter(a, m, key);
  }

  lemma {:induction false} FindBetween(a: seq<Entry>, m: seq<Entry>, b: seq<Entry>, key: Key)
    requires AllBelow(a, key) && AllAbove(b, key)
    ensures Find(a + m + b, key) == Find(m, key)
    decreases |a| + |m| + |b|
  {
    hide Less;
    LessIrreflexive(key);
    if a != [] {
      assert (a + m + b)[1..] == a[1..] + m + b;
      FindBetween(a[1..], m, b, key);
    } else if m != [] {
      assert a + m + b == m + b && (m + b)[1..] == [] + m[1..] + b;
      FindBetween([], m[1..], b, key);
    } else if b != [] {
      assert a + m + b == b && b[1..] == [] + [] + b[1..];
      FindBetween([], [], b[1..], key);
    }
  }

  // ---------- the map a sorted sequence stands for ----------

  ghost function MapOf(es: seq<Entry>): map<Key, RowId> {
    if es == [] then map[] else MapOf(es[1..])[es[0].key := es[0].row]
  }

  lemma {:induction false} MapOfKeys(es: seq<Entry>, key: Key)
    ensures key in MapOf(es) <==> exists i :: 0 <= i < |es| && es[i].key == key
  {
    if es != [] {
      MapOfKeys(es[1..], key);
      if i :| 0 <= i < |es| && es[i].key == key {
        assert i > 0 ==> es[1..][i - 1].key == key;
      }
      if i :| 0 <= i < |es[1..]| && es[1..][i].key == key {
        assert es[i + 1].key == key;
      }
    }
  }

  lemma {:induction false} FindIsLookup(es: seq<Entry>, key: Key)
    ensures Find(es, key) == if key in MapOf(es) then Some(MapOf(es)[key]) else None
  {
    if es != [] {
      FindIsLookup(es[1..], key);
    }
  }

  // No key twice, so the map has as many keys as there are entries.
  lemma SortedFirst(es: seq<Entry>)
    requires Sorted(es) && es != []
    ensures es[0].key !in MapOf(es[1..]) && Sorted(es[1..])
  {
    hide Less;
    MapOfKeys(es[1..], es[0].key);
    LessIrreflexive(es[0].key);
    assert forall i :: 0 <= i < |es[1..]| ==> es[1..][i] == es[i + 1];
  }

  // No key twice, so the map has as many keys as there are entries.
  lemma {:induction false} MapOfSize(es: seq<Entry>)
    requires Sorted(es)
    ensures |MapOf(es)| == |es|
  {
    if es != [] {
      SortedFirst(es);
      MapOfSize(es[1..]);
      assert MapOf(es).Keys == MapOf(es[1..]).Keys + {es[0].key};
    }
  }

  lemma {:induction false} MapOfPut(es: seq<Entry>, key: Key, row: RowId)
    ensures MapOf(PutEntry(es, key, row)) == MapOf(es)[key := row]
  {
    hide Less;
    if es != [] {
      var rest := es[1..];
      LessIrreflexive(key);
      if Less(es[0].key, key) {
        MapOfPut(rest, key, row);
        assert PutEntry(es, key, row)[1..] == PutEntry(rest, key, row);
      } else if es[0].key == key {
        assert PutEntry(es, key, row)[1..] == rest;
      } else {
        assert PutEntry(es, key, row)[1..] == es;
      }
    }
  }

  lemma {:induction false} MapOfRemove(es: seq<Entry>, key: Key)
    requires Sorted(es)
    ensures MapOf(RemoveEntry(es, key)) == MapOf(es) - {key}
  {
    if es != [] {
      SortedFirst(es);
      if es[0].key != key {
        MapOfRemove(es[1..], key);
        assert RemoveEntry(es, key)[1..] == RemoveEntry(es[1..], key);
      }
    }
  }

  lemma {:induction false} RemoveLength(es: seq<Entry>, key: Key)
    ensures |RemoveEntry(es, key)| == if Find(es, key).Some? then |es| - 1 else |es|
  {
    if es != [] {
      RemoveLength(es[1..], key);
    }
  }

  lemma {:induction false} PutLength(es: seq<Entry>, key: Key, row: RowId)
    requires Sorted(es)
    ensures |PutEntry(es, key, row)| == if Find(es, key).Some? then |es| else |es| + 1
  {
    hide Less;
    if es != [] {
      SortedFirst(es);
      LessIrreflexive(key);
      if Less(es[0].key, key) {
        PutLength(es[1..], key, row);
      } else if es[0].key != key {
        LessTotal(es[0].key, key);
        forall i | 0 <= i < |es|
          ensures Less(key, es[i].key)
        {
          if i > 0 {
            LessTransitive(key, es[0].key, es[i].key);
          }
        }
        FindBetween([], [], es, key);
        assert [] + [] + es == es;
      }
    }
  }
}

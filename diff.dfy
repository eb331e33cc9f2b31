/** The diff between a table's declared records and its stored snapshot
    (setup.js:297-304 for constraints, 340-347 for columns): the same three
    filters, keyed by record name, applied to either kind of record. */
module Diff {
  import opened Seqs

  /** What changed: records to add, to remove and to modify. */
  datatype ChangeSet<T> = ChangeSet(toAdd: seq<T>, toRemove: seq<T>, toModify: seq<T>)

  /** `list.map(r => r.name)` */
  function Keys<T>(key: T -> Option<string>, s: seq<T>): seq<Option<string>>
  {
    MapSeq(key, s)
  }

  lemma KeysCons<T>(key: T -> Option<string>, s: seq<T>)
    requires s != []
    ensures Keys(key, s) == [key(s[0])] + Keys(key, s[1..])
  {
    MapSeqAppend(key, [s[0]], s[1..]);
    assert [s[0]] + s[1..] == s;
  }

  lemma KeyIn<T>(key: T -> Option<string>, s: seq<T>, x: T)
    requires x in s
    ensures key(x) in Keys(key, s)
  {
    var i :| 0 <= i < |s| && s[i] == x;
    assert Keys(key, s)[i] == key(x);
  }

  /** `list.find(r => r.name === k)`: the FIRST record with that name. */
  function Find<T>(key: T -> Option<string>, s: seq<T>, k: Option<string>): (r: Option<T>)
    ensures r.None? <==> k !in Keys(key, s)
    ensures r.Some? ==> r.value in s && key(r.value) == k
    ensures r.Some? ==> exists i :: 0 <= i < |s| && s[i] == r.value && forall j :: 0 <= j < i ==> key(s[j]) != k
  {
    if s == [] then None
    else
      KeysCons(key, s);
      if key(s[0]) == k then Some(s[0])
      else
        var r := Find(key, s[1..], k);
        assert r.Some? ==> exists i :: 0 <= i < |s| && s[i] == r.value && forall j :: 0 <= j < i ==> key(s[j]) != k by {
          if r.Some? {
            var i :| 0 <= i < |s[1..]| && s[1..][i] == r.value && forall j :: 0 <= j < i ==> key(s[1..][j]) != k;
            assert s[i + 1] == r.value;
            forall j | 0 <= j < i + 1 ensures key(s[j]) != k {
              if j > 0 {
                assert s[j] == s[1..][j - 1];
              }
            }
          }
        }
        r
  }

  /** No two records share a name. */
  ghost predicate UniqueKeys<T>(key: T -> Option<string>, s: seq<T>)
  {
    forall i, j :: 0 <= i < j < |s| ==> key(s[i]) != key(s[j])
  }

  /** With unique names, looking a stored record up by its own name finds it. */
  lemma {:induction false} FindOwnKey<T>(key: T -> Option<string>, s: seq<T>, x: T)
    requires UniqueKeys(key, s) && x in s
    ensures Find(key, s, key(x)) == Some(x)
  {
    if s[0] != x {
      assert key(s[0]) != key(x) by {
        var i :| 0 <= i < |s| && s[i] == x;
      }
      assert UniqueKeys(key, s[1..]) by {
        forall i, j | 0 <= i < j < |s[1..]| ensures key(s[1..][i]) != key(s[1..][j]) {
          assert s[1..][i] == s[i + 1] && s[1..][j] == s[j + 1];
        }
      }
      FindOwnKey(key, s[1..], x);
    }
  }

  /** The filter predicate "name not among `ks`". */
  function Absent<T>(key: T -> Option<string>, ks: seq<Option<string>>): T -> bool
  {
    x => key(x) !in ks
  }

  /** The filter predicate "the first stored record of this name is not this
      very record" (`JSON.stringify(old) !== JSON.stringify(r)`). */
  function Differs<T(==)>(key: T -> Option<string>, stored: seq<T>): T -> bool
  {
    x => Find(key, stored, key(x)) != Some(x)
  }

  /** The three partitions of setup.js:340-347 (and 297-304). */
  function Changes<T(==,!new)>(key: T -> Option<string>, declared: seq<T>, stored: seq<T>): (r: ChangeSet<T>)
    ensures |r.toAdd| <= |declared| && |r.toRemove| <= |stored| && |r.toModify| <= |declared|
    ensures forall x :: x in r.toAdd <==> x in declared && key(x) !in Keys(key, stored)
    ensures forall x :: x in r.toRemove <==> x in stored && key(x) !in Keys(key, declared)
    ensures forall x :: x in r.toModify <==> x in declared && Find(key, stored, key(x)) != Some(x)
  {
    ChangeSet(Filter(Absent(key, Keys(key, stored)), declared),
              Filter(Absent(key, Keys(key, declared)), stored),
              Filter(Differs(key, stored), declared))
  }

  /** A record that is new by name is also in the modify list: the modify
      filter sees `undefined` for it, which never equals a record. */
  lemma AddedAreModified<T(!new)>(key: T -> Option<string>, declared: seq<T>, stored: seq<T>, x: T)
    requires x in Changes(key, declared, stored).toAdd
    ensures x in Changes(key, declared, stored).toModify
  {
  }

  /** With unique stored names, a declared record is in the modify list
      exactly when it is not stored verbatim. */
  lemma ModifiedMeansNotStored<T(!new)>(key: T -> Option<string>, declared: seq<T>, stored: seq<T>, x: T)
    requires UniqueKeys(key, stored)
    ensures x in Changes(key, declared, stored).toModify <==> x in declared && x !in stored
  {
    if x in stored {
      FindOwnKey(key, stored, x);
    }
  }

  /** Reordering a snapshot with unique names (or leaving it as it is) puts
      no record in any of the three lists. */
  lemma ReorderedNoChanges<T(!new)>(key: T -> Option<string>, declared: seq<T>, stored: seq<T>)
    requires multiset(declared) == multiset(stored)
    requires UniqueKeys(key, stored)
    ensures Changes(key, declared, stored) == ChangeSet([], [], [])
  {
    forall x | x in declared ensures !Absent(key, Keys(key, stored))(x) && !Differs(key, stored)(x) {
      assert x in multiset(stored);
      KeyIn(key, stored, x);
      FindOwnKey(key, stored, x);
    }
    forall x | x in stored ensures !Absent(key, Keys(key, declared))(x) {
      assert x in multiset(declared);
      KeyIn(key, declared, x);
    }
    FilterNone(Absent(key, Keys(key, stored)), declared);
    FilterNone(Absent(key, Keys(key, declared)), stored);
    FilterNone(Differs(key, stored), declared);
  }

  /** A record inserted under a fresh name is the only one added. */
  lemma InsertedAdds<T(!new)>(key: T -> Option<string>, a: seq<T>, c: T, b: seq<T>)
    requires key(c) !in Keys(key, a + b)
    ensures Changes(key, a + [c] + b, a + b).toAdd == [c]
  {
    var add := Absent(key, Keys(key, a + b));
    forall x | x in a + b ensures !add(x) {
      KeyIn(key, a + b, x);
    }
    FilterOnly(add, a, c, b);
  }

  /** Inserting a record removes nothing. */
  lemma InsertedRemovesNothing<T(!new)>(key: T -> Option<string>, a: seq<T>, c: T, b: seq<T>)
    ensures Changes(key, a + [c] + b, a + b).toRemove == []
  {
    var gone := Absent(key, Keys(key, a + [c] + b));
    forall x | x in a + b ensures !gone(x) {
      assert x in a + [c] + b;
      KeyIn(key, a + [c] + b, x);
    }
    FilterNone(gone, a + b);
  }

  /** A record inserted under a fresh name is the only one modified. */
  lemma InsertedModifies<T(!new)>(key: T -> Option<string>, a: seq<T>, c: T, b: seq<T>)
    requires UniqueKeys(key, a + b)
    requires key(c) !in Keys(key, a + b)
    ensures Changes(key, a + [c] + b, a + b).toModify == [c]
  {
    var diff := Differs(key, a + b);
    forall x | x in a + b ensures !diff(x) {
      FindOwnKey(key, a + b, x);
    }
    FilterOnly(diff, a, c, b);
  }

  /** Declaring one extra record under a fresh name, at any position, yields
      it in the add list and, as well, in the modify list; nothing is
      removed. */
  lemma InsertedRecord<T(!new)>(key: T -> Option<string>, a: seq<T>, c: T, b: seq<T>)
    requires UniqueKeys(key, a + b)
    requires key(c) !in Keys(key, a + b)
    ensures Changes(key, a + [c] + b, a + b) == ChangeSet([c], [], [c])
  {
    InsertedAdds(key, a, c, b);
    InsertedRemovesNothing(key, a, c, b);
    InsertedModifies(key, a, c, b);
  }

  /** Dropping a record adds nothing and modifies nothing. */
  lemma DroppedAltersNothing<T(!new)>(key: T -> Option<string>, a: seq<T>, c: T, b: seq<T>)
    requires UniqueKeys(key, a + [c] + b)
    ensures Changes(key, a + b, a + [c] + b).toAdd == []
    ensures Changes(key, a + b, a + [c] + b).toModify == []
  {
    var stored, declared := a + [c] + b, a + b;
    var add, diff := Absent(key, Keys(key, stored)), Differs(key, stored);
    forall x | x in declared ensures !add(x) && !diff(x) {
      assert x in stored;
      KeyIn(key, stored, x);
      FindOwnKey(key, stored, x);
    }
    FilterNone(add, declared);
    FilterNone(diff, declared);
  }

  /** With unique names, the dropped record's name is not among the rest. */
  lemma DroppedKeyGone<T>(key: T -> Option<string>, a: seq<T>, c: T, b: seq<T>)
    requires UniqueKeys(key, a + [c] + b)
    ensures key(c) !in Keys(key, a + b)
  {
    var stored, declared := a + [c] + b, a + b;
    forall i | 0 <= i < |declared| ensures Keys(key, declared)[i] != key(c) {
      if i < |a| {
        assert stored[i] == declared[i] && stored[|a|] == c;
      } else {
        assert stored[i + 1] == declared[i] && stored[|a|] == c;
      }
    }
  }

  /** The dropped record is the only one removed. */
  lemma DroppedRemoves<T(!new)>(key: T -> Option<string>, a: seq<T>, c: T, b: seq<T>)
    requires UniqueKeys(key, a + [c] + b)
    ensures Changes(key, a + b, a + [c] + b).toRemove == [c]
  {
    var gone := Absent(key, Keys(key, a + b));
    forall x | x in a + b ensures !gone(x) {
      KeyIn(key, a + b, x);
    }
    DroppedKeyGone(key, a, c, b);
    FilterOnly(gone, a, c, b);
  }

  /** Dropping one record from a snapshot with unique names yields exactly
      that record in the remove list. */
  lemma DroppedRecord<T(!new)>(key: T -> Option<string>, a: seq<T>, c: T, b: seq<T>)
    requires UniqueKeys(key, a + [c] + b)
    ensures Changes(key, a + b, a + [c] + b) == ChangeSet([], [c], [])
  {
    DroppedAltersNothing(key, a, c, b);
    DroppedRemoves(key, a, c, b);
  }

  /** Replacing one record by a same-named one adds nothing. */
  lemma ReplacedAddsNothing<T(!new)>(key: T -> Option<string>, a: seq<T>, c: T, c': T, b: seq<T>)
    requires UniqueKeys(key, a + [c] + b)
    requires key(c') == key(c)
    ensures Changes(key, a + [c'] + b, a + [c] + b).toAdd == []
  {
    var stored, declared := a + [c] + b, a + [c'] + b;
    var add := Absent(key, Keys(key, stored));
    forall x | x in declared ensures !add(x) {
      if x == c' {
        KeyIn(key, stored, c);
      } else {
        KeyIn(key, stored, x);
      }
    }
    FilterNone(add, declared);
  }

  /** Replacing one record by a same-named one removes nothing. */
  lemma ReplacedRemovesNothing<T(!new)>(key: T -> Option<string>, a: seq<T>, c: T, c': T, b: seq<T>)
    requires UniqueKeys(key, a + [c] + b)
    requires key(c') == key(c)
    ensures Changes(key, a + [c'] + b, a + [c] + b).toRemove == []
  {
    var stored, declared := a + [c] + b, a + [c'] + b;
    var gone := Absent(key, Keys(key, declared));
    forall x | x in stored ensures !gone(x) {
      if x == c {
        KeyIn(key, declared, c');
      } else {
        KeyIn(key, declared, x);
      }
    }
    FilterNone(gone, stored);
  }

  /** Replacing one record by a different same-named one modifies exactly
      the new record. */
  lemma ReplacedModifiesIt<T(!new)>(key: T -> Option<string>, a: seq<T>, c: T, c': T, b: seq<T>)
    requires UniqueKeys(key, a + [c] + b)
    requires key(c') == key(c) && c' != c
    ensures Changes(key, a + [c'] + b, a + [c] + b).toModify == [c']
  {
    var stored := a + [c] + b;
    var diff := Differs(key, stored);
    FindOwnKey(key, stored, c);
    forall x | x in a ensures !diff(x) {
      FindOwnKey(key, stored, x);
    }
    forall x | x in b ensures !diff(x) {
      FindOwnKey(key, stored, x);
    }
    FilterOnly(diff, a, c', b);
  }

  /** Replacing one record of a snapshot with unique names by a different
      record of the same name yields exactly the new record in the modify list. */
  lemma ReplacedRecord<T(!new)>(key: T -> Option<string>, a: seq<T>, c: T, c': T, b: seq<T>)
    requires UniqueKeys(key, a + [c] + b)
    requires key(c') == key(c) && c' != c
    ensures Changes(key, a + [c'] + b, a + [c] + b) == ChangeSet([], [], [c'])
  {
    ReplacedAddsNothing(key, a, c, c', b);
    ReplacedRemovesNothing(key, a, c, c', b);
    ReplacedModifiesIt(key, a, c, c', b);
  }
}

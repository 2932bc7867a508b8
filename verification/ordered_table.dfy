/** An insertion-ordered string-keyed table, the part of a PHP array the
    container relies on: lookup by key, append of a new key at the end,
    `unset` of a key, and `end()` (the last inserted entry). */
module OrderedTable {
  import opened Wrappers

  datatype Entry<V> = Entry(key: string, val: V)

  /** Some entry of `t` carries key `k`. */
  predicate Has<V>(t: seq<Entry<V>>, k: string) {
    exists i :: 0 <= i < |t| && t[i].key == k
  }

  /** No key occurs twice, as in a PHP array. */
  predicate Distinct<V>(t: seq<Entry<V>>) {
    forall i, j :: 0 <= i < j < |t| ==> t[i].key != t[j].key
  }

  /** The value stored under `k` (the first entry with that key). */
  function Find<V>(t: seq<Entry<V>>, k: string): (r: Option<V>)
    ensures r.Some? <==> Has(t, k)
    ensures r.Some? ==> Entry(k, r.value) in t
    ensures Distinct(t) ==> forall i :: 0 <= i < |t| && t[i].key == k ==> r == Some(t[i].val)
  {
    if |t| == 0 then None
    else if t[0].key == k then Some(t[0].val)
    else
      var r := Find(t[1..], k);
      assert forall i :: 1 <= i < |t| ==> t[1..][i - 1] == t[i];
      r
  }

  /** Adding a new last entry leaves every earlier lookup alone and makes
      the new key visible only when it was absent. */
  lemma {:induction false} FindAppend<V>(t: seq<Entry<V>>, e: Entry<V>, j: string)
    ensures Find(t + [e], j) == if Has(t, j) then Find(t, j) else if j == e.key then Some(e.val) else None
  {
    if |t| == 0 {
      assert t + [e] == [e];
    } else {
      assert (t + [e])[1..] == t[1..] + [e];
      if t[0].key != j {
        FindAppend(t[1..], e, j);
        assert Has(t[1..], j) ==> Has(t, j) by {
          if Has(t[1..], j) {
            var i :| 0 <= i < |t[1..]| && t[1..][i].key == j;
            assert t[i + 1].key == j;
          }
        }
      }
    }
  }

  /** Appending a fresh key keeps the keys distinct. */
  lemma AppendDistinct<V>(t: seq<Entry<V>>, e: Entry<V>)
    requires Distinct(t) && !Has(t, e.key)
    ensures Distinct(t + [e])
  {
  }

  /** `unset($t[$k])`: every entry with key `k` is dropped, the others keep
      their relative order. */
  function Remove<V>(t: seq<Entry<V>>, k: string): (r: seq<Entry<V>>)
    ensures !Has(r, k)
    ensures |r| <= |t|
    ensures forall e :: e in r ==> e in t
    ensures forall i :: 0 <= i < |t| && t[i].key != k ==> t[i] in r
  {
    if |t| == 0 then []
    else
      var rest := Remove(t[1..], k);
      assert forall i :: 1 <= i < |t| ==> t[1..][i - 1] == t[i];
      if t[0].key == k then rest else [t[0]] + rest
  }

  /** `unset` adds no entry and duplicates none: the result is a
      sub-multiset of the table. */
  lemma {:induction false} RemoveSubMultiset<V>(t: seq<Entry<V>>, k: string)
    ensures multiset(Remove(t, k)) <= multiset(t)
  {
    if |t| > 0 {
      RemoveSubMultiset(t[1..], k);
      assert t == [t[0]] + t[1..];
      assert multiset(t) == multiset{t[0]} + multiset(t[1..]);
      if t[0].key != k {
        assert multiset([t[0]] + Remove(t[1..], k)) == multiset{t[0]} + multiset(Remove(t[1..], k));
      }
    }
  }

  /** Removing a key makes exactly that key disappear from lookups. */
  lemma {:induction false} FindRemove<V>(t: seq<Entry<V>>, k: string, j: string)
    ensures Find(Remove(t, k), j) == if j == k then None else Find(t, j)
  {
    if |t| > 0 {
      FindRemove(t[1..], k, j);
      if t[0].key != k {
        assert ([t[0]] + Remove(t[1..], k))[1..] == Remove(t[1..], k);
      }
    }
  }

  /** Removal seen from the end of the table: the last entry is dropped
      when it has key `k` and otherwise stays last, behind what remains of
      the earlier entries. Together with `Remove([], k) == []` this fixes
      the result completely: the survivors keep their order. */
  lemma {:induction false} RemoveSnoc<V>(t: seq<Entry<V>>, e: Entry<V>, k: string)
    ensures Remove(t + [e], k) == if e.key == k then Remove(t, k) else Remove(t, k) + [e]
    decreases |t|
  {
    if |t| == 0 {
      assert ([e])[1..] == [];
    } else {
      assert (t + [e])[1..] == t[1..] + [e];
      RemoveSnoc(t[1..], e, k);
    }
  }

  /** Removing a key that is absent changes nothing. */
  lemma {:induction false} RemoveAbsent<V>(t: seq<Entry<V>>, k: string)
    requires !Has(t, k)
    ensures Remove(t, k) == t
  {
    if |t| > 0 {
      assert !Has(t[1..], k) by {
        forall i | 0 <= i < |t[1..]|
          ensures t[1..][i].key != k
        {
          assert t[1..][i] == t[i + 1];
        }
      }
      RemoveAbsent(t[1..], k);
      assert t == [t[0]] + t[1..];
    }
  }

  /** `end()` after `unset`: removing a key other than the last one keeps
      the last entry; removing the last key of a table with unique keys
      makes the entry before it the last one. */
  lemma RemoveLast<V>(t: seq<Entry<V>>, k: string)
    requires |t| > 0
    ensures Last(t).key != k ==> |Remove(t, k)| > 0 && Last(Remove(t, k)) == Last(t)
    ensures Distinct(t) && Last(t).key == k ==> Remove(t, k) == t[..|t| - 1]
  {
    var n := |t| - 1;
    assert t == t[..n] + [t[n]];
    RemoveSnoc(t[..n], t[n], k);
    if Distinct(t) && t[n].key == k {
      assert !Has(t[..n], k) by {
        forall i | 0 <= i < n
          ensures t[..n][i].key != k
        {
          assert t[..n][i] == t[i];
        }
      }
      RemoveAbsent(t[..n], k);
    }
  }

  /** Removing keeps the keys distinct. */
  lemma {:induction false} RemoveDistinct<V>(t: seq<Entry<V>>, k: string)
    requires Distinct(t)
    ensures Distinct(Remove(t, k))
  {
    if |t| > 0 {
      assert Distinct(t[1..]) by {
        forall i, j | 0 <= i < j < |t[1..]|
          ensures t[1..][i].key != t[1..][j].key
        {
          assert t[1..][i] == t[i + 1] && t[1..][j] == t[j + 1];
        }
      }
      RemoveDistinct(t[1..], k);
      if t[0].key != k {
        var rest := Remove(t[1..], k);
        forall i | 0 <= i < |rest|
          ensures rest[i].key != t[0].key
        {
          assert rest[i] in t[1..];
        }
      }
    }
  }

  /** `end($t)`: the most recently inserted entry. */
  function Last<V>(t: seq<Entry<V>>): (e: Entry<V>)
    requires |t| > 0
    ensures e in t
  {
    t[|t| - 1]
  }
}

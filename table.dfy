/**
 * The trigger -> response dictionary `custom_commands`. A Python dict
 * remembers the order in which its keys were first inserted, and the List
 * command shows them in that order, so the table is kept as a sequence of
 * keys beside the map from key to value.
 */
module OrderedTable {

  predicate Distinct(ks: seq<string>) {
    forall i, j :: 0 <= i < j < |ks| ==> ks[i] != ks[j]
  }

  datatype Table = Table(keys: seq<string>, entries: map<string, string>) {
    /** The keys listed once each, and exactly the keys of the map. */
    ghost predicate Valid() {
      Distinct(keys) && forall k :: k in entries <==> k in keys
    }
  }

  const Empty: Table := Table([], map[])

  /** `d[k] = v`: a new key goes to the end, an existing key keeps its place
      and only its value changes. */
  function Put(t: Table, k: string, v: string): (r: Table)
    requires t.Valid()
    ensures r.Valid()
    ensures k in r.entries && r.entries[k] == v
    ensures forall x :: x != k ==> (x in r.entries <==> x in t.entries)
    ensures forall x :: x != k && x in t.entries ==> r.entries[x] == t.entries[x]
    ensures k in t.entries ==> r.keys == t.keys
    ensures k !in t.entries ==> r.keys == t.keys + [k]
  {
    if k in t.entries then Table(t.keys, t.entries[k := v])
    else Table(t.keys + [k], t.entries[k := v])
  }

  /** The keys `ks` without `k`, the others in their order. */
  function Without(ks: seq<string>, k: string): (r: seq<string>)
    ensures |r| <= |ks|
    ensures forall x :: x in r <==> x in ks && x != k
  {
    if ks == [] then []
    else if ks[0] == k then Without(ks[1..], k)
    else [ks[0]] + Without(ks[1..], k)
  }

  lemma {:induction false} WithoutAbsent(ks: seq<string>, k: string)
    requires k !in ks
    ensures Without(ks, k) == ks
  {
    if ks != [] {
      WithoutAbsent(ks[1..], k);
    }
  }

  lemma {:induction false} WithoutDistinct(ks: seq<string>, k: string)
    requires Distinct(ks)
    ensures Distinct(Without(ks, k))
  {
    if ks != [] {
      WithoutDistinct(ks[1..], k);
      if ks[0] != k {
        assert ks[0] !in ks[1..];
      }
    }
  }

  /** Removing a key listed once at `i` closes the gap and keeps the other
      keys in their order. */
  lemma {:induction false} WithoutAt(ks: seq<string>, k: string, i: nat)
    requires Distinct(ks) && i < |ks| && ks[i] == k
    ensures Without(ks, k) == ks[..i] + ks[i + 1..]
  {
    if i == 0 {
      assert k !in ks[1..];
      WithoutAbsent(ks[1..], k);
    } else {
      assert ks[1..][i - 1] == k;
      WithoutAt(ks[1..], k, i - 1);
      assert ks[1..][..i - 1] + ks[1..][i..] == ks[1..i] + ks[i + 1..];
      assert ks[..i] == [ks[0]] + ks[1..i];
    }
  }

  /** Removing a key that was last appended gives back the keys before it. */
  lemma {:induction false} WithoutAppended(ks: seq<string>, k: string)
    ensures Without(ks + [k], k) == Without(ks, k)
  {
    if ks == [] {
      assert [k][1..] == [];
    } else {
      assert (ks + [k])[1..] == ks[1..] + [k];
      WithoutAppended(ks[1..], k);
    }
  }

  /** `del d[k]` when `k in d`, and no change otherwise. */
  function Remove(t: Table, k: string): (r: Table)
    requires t.Valid()
    ensures r.Valid()
    ensures k !in r.entries
    ensures forall x :: x != k ==> (x in r.entries <==> x in t.entries)
    ensures forall x :: x != k && x in t.entries ==> r.entries[x] == t.entries[x]
    ensures k !in t.entries ==> r == t
    ensures k in t.entries ==> r.keys == Without(t.keys, k)
  {
    WithoutDistinct(t.keys, k);
    if k !in t.entries then WithoutAbsent(t.keys, k); t
    else Table(Without(t.keys, k), t.entries - {k})
  }

  /** `del d[k]` closes the gap the key leaves: the keys before and after it
      keep their order. */
  lemma {:induction false} RemoveKeepsOrder(t: Table, k: string)
    requires t.Valid() && k in t.entries
    ensures exists i :: 0 <= i < |t.keys| && t.keys[i] == k && Remove(t, k).keys == t.keys[..i] + t.keys[i + 1..]
  {
    var i :| 0 <= i < |t.keys| && t.keys[i] == k;
    WithoutAt(t.keys, k, i);
  }

  /** Upserting the same key twice keeps one entry, holding the later value. */
  lemma {:induction false} PutTwice(t: Table, k: string, v1: string, v2: string)
    requires t.Valid()
    ensures Put(Put(t, k, v1), k, v2) == Put(t, k, v2)
  {
    var once := Put(t, k, v1);
    assert once.entries[k := v2] == t.entries[k := v2];
  }

  /** Deleting twice is deleting once. */
  lemma {:induction false} RemoveIdempotent(t: Table, k: string)
    requires t.Valid()
    ensures Remove(Remove(t, k), k) == Remove(t, k)
  {
  }

  /** Deleting what was just added leaves the table as deleting alone would. */
  lemma {:induction false} PutThenRemove(t: Table, k: string, v: string)
    requires t.Valid()
    ensures Remove(Put(t, k, v), k) == Remove(t, k)
  {
    if k in t.entries {
      OverwriteThenRemove(t, k, v);
    } else {
      AppendThenRemove(t, k, v);
    }
  }

  lemma {:induction false} OverwriteThenRemove(t: Table, k: string, v: string)
    requires t.Valid() && k in t.entries
    ensures Remove(Put(t, k, v), k) == Remove(t, k)
  {
    var p := Put(t, k, v);
    var after, alone := Remove(p, k), Remove(t, k);
    assert after.keys == alone.keys by {
      assert p.keys == t.keys;
    }
    assert after.entries == alone.entries by {
      assert after.entries.Keys == alone.entries.Keys;
    }
  }

  lemma {:induction false} AppendThenRemove(t: Table, k: string, v: string)
    requires t.Valid() && k !in t.entries
    ensures Remove(Put(t, k, v), k) == t
  {
    var p := Put(t, k, v);
    var after := Remove(p, k);
    assert after.keys == t.keys by {
      assert p.keys == t.keys + [k];
      WithoutAppended(t.keys, k);
      WithoutAbsent(t.keys, k);
    }
    assert after.entries == t.entries by {
      assert after.entries.Keys == t.entries.Keys;
    }
  }

  /** The `(key, value)` pairs of `ks`, in order: what `json.dump` writes. */
  function ItemsOf(ks: seq<string>, m: map<string, string>): (r: seq<(string, string)>)
    requires forall k :: k in ks ==> k in m
    ensures |r| == |ks|
    ensures forall i :: 0 <= i < |ks| ==> r[i] == (ks[i], m[ks[i]])
  {
    if ks == [] then []
    else ItemsOf(ks[..|ks| - 1], m) + [(ks[|ks| - 1], m[ks[|ks| - 1]])]
  }

  function Items(t: Table): seq<(string, string)>
    requires t.Valid()
  {
    ItemsOf(t.keys, t.entries)
  }

  /** The dict built from an object's pairs in order, as `json.load` does:
      the first occurrence of a key fixes its place, the last its value. */
  function FromPairs(ps: seq<(string, string)>): (r: Table)
    ensures r.Valid()
    ensures forall i :: 0 <= i < |ps| ==> ps[i].0 in r.entries
    ensures forall k :: k in r.entries ==> exists i :: 0 <= i < |ps| && ps[i].0 == k
    ensures ps != [] ==> r.entries[ps[|ps| - 1].0] == ps[|ps| - 1].1
  {
    if ps == [] then Empty
    else
      var init := FromPairs(ps[..|ps| - 1]);
      assert forall i :: 0 <= i < |ps| - 1 ==> ps[..|ps| - 1][i] == ps[i];
      var r := Put(init, ps[|ps| - 1].0, ps[|ps| - 1].1);
      assert forall k :: k in r.entries ==> exists i :: 0 <= i < |ps| && ps[i].0 == k by {
        forall k | k in r.entries
          ensures exists i :: 0 <= i < |ps| && ps[i].0 == k
        {
          if k != ps[|ps| - 1].0 {
            var i :| 0 <= i < |ps| - 1 && ps[..|ps| - 1][i].0 == k;
            assert ps[i].0 == k;
          }
        }
      }
      r
  }

  /** Each key of `r` takes its value from a pair with no later pair for the same key. */
  ghost predicate LastWins(ps: seq<(string, string)>, r: Table) {
    forall k :: k in r.entries ==>
      exists i :: 0 <= i < |ps| && ps[i] == (k, r.entries[k]) && forall j :: i < j < |ps| ==> ps[j].0 != k
  }

  lemma {:induction false} LastWinsStep(init: seq<(string, string)>, p: (string, string), prev: Table)
    requires prev.Valid() && LastWins(init, prev)
    ensures LastWins(init + [p], Put(prev, p.0, p.1))
  {
    var ps := init + [p];
    var r := Put(prev, p.0, p.1);
    forall k | k in r.entries
      ensures exists i :: 0 <= i < |ps| && ps[i] == (k, r.entries[k]) && forall j :: i < j < |ps| ==> ps[j].0 != k
    {
      if k == p.0 {
        assert ps[|init|] == (k, r.entries[k]);
      } else {
        var i :| 0 <= i < |init| && init[i] == (k, prev.entries[k]) && forall j :: i < j < |init| ==> init[j].0 != k;
        assert ps[i] == (k, r.entries[k]);
        forall j | i < j < |ps|
          ensures ps[j].0 != k
        {
          if j < |init| {
            assert ps[j] == init[j];
          }
        }
      }
    }
  }

  /** The last pair naming a key decides its value. */
  lemma {:induction false} FromPairsLastWins(ps: seq<(string, string)>)
    ensures LastWins(ps, FromPairs(ps))
  {
    if ps != [] {
      var init := ps[..|ps| - 1];
      assert ps == init + [ps[|ps| - 1]];
      FromPairsLastWins(init);
      LastWinsStep(init, ps[|ps| - 1], FromPairs(init));
    }
  }

  /** A key listed before another was named by some pair before every pair
      naming the other. */
  ghost predicate FirstPlace(ps: seq<(string, string)>, r: Table) {
    forall a, b, j :: 0 <= a < b < |r.keys| && 0 <= j < |ps| && ps[j].0 == r.keys[b] ==>
      NamedBefore(ps, r.keys[a], j)
  }

  /** Some pair before index `j` names `k`. */
  ghost predicate NamedBefore(ps: seq<(string, string)>, k: string, j: int) {
    exists i :: 0 <= i < j && i < |ps| && ps[i].0 == k
  }

  /** Every key of `r` is named by some pair, and every pair's key is in `r`. */
  ghost predicate NamedBy(ps: seq<(string, string)>, r: Table) {
    (forall i :: 0 <= i < |ps| ==> ps[i].0 in r.entries)
    && forall k :: k in r.entries ==> exists i :: 0 <= i < |ps| && ps[i].0 == k
  }

  /** `FirstPlace` after appending `p`, for two keys that were already in the table. */
  lemma {:induction false} FirstPlaceOld(init: seq<(string, string)>, p: (string, string), prev: Table,
                                         a: nat, b: nat, j: nat)
    requires NamedBy(init, prev) && FirstPlace(init, prev)
    requires a < b < |prev.keys| && prev.keys[b] in prev.entries
    requires j <= |init| && (init + [p])[j].0 == prev.keys[b]
    ensures NamedBefore(init + [p], prev.keys[a], j)
  {
    var ps := init + [p];
    var jb := j;
    if j == |init| {
      jb :| 0 <= jb < |init| && init[jb].0 == prev.keys[b];
    } else {
      assert ps[j] == init[j];
    }
    assert NamedBefore(init, prev.keys[a], jb);
    var i :| 0 <= i < jb && i < |init| && init[i].0 == prev.keys[a];
    assert ps[i] == init[i];
  }

  /** `FirstPlace` after appending `p`, when `p` brings a new key. */
  lemma {:induction false} FirstPlaceNew(init: seq<(string, string)>, p: (string, string), prev: Table,
                                         a: nat, j: nat)
    requires prev.Valid() && NamedBy(init, prev)
    requires p.0 !in prev.entries && a < |prev.keys|
    requires j <= |init| && (init + [p])[j].0 == p.0
    ensures NamedBefore(init + [p], prev.keys[a], j)
  {
    var ps := init + [p];
    if j < |init| {
      assert false;
    }
    assert prev.keys[a] in prev.entries;
    var i :| 0 <= i < |init| && init[i].0 == prev.keys[a];
    assert ps[i] == init[i];
  }

  lemma {:induction false} FirstPlaceStep(init: seq<(string, string)>, p: (string, string), prev: Table)
    requires prev.Valid() && NamedBy(init, prev) && FirstPlace(init, prev)
    ensures FirstPlace(init + [p], Put(prev, p.0, p.1))
  {
    var r := Put(prev, p.0, p.1);
    var ks := r.keys;
    assert ks == prev.keys || (ks == prev.keys + [p.0] && p.0 !in prev.entries);
    forall a, b, j | 0 <= a < b < |ks| && 0 <= j < |init + [p]| && (init + [p])[j].0 == ks[b]
      ensures NamedBefore(init + [p], ks[a], j)
    {
      if b < |prev.keys| {
        assert ks[a] == prev.keys[a] && ks[b] == prev.keys[b];
        FirstPlaceOld(init, p, prev, a, b, j);
      } else {
        assert ks[a] == prev.keys[a] && ks[b] == p.0 && p.0 !in prev.entries;
        FirstPlaceNew(init, p, prev, a, j);
      }
    }
  }

  /** The first pair naming a key decides its place. */
  lemma {:induction false} FromPairsFirstPlace(ps: seq<(string, string)>)
    ensures FirstPlace(ps, FromPairs(ps))
  {
    if ps != [] {
      var init := ps[..|ps| - 1];
      assert ps == init + [ps[|ps| - 1]];
      FromPairsFirstPlace(init);
      FirstPlaceStep(init, ps[|ps| - 1], FromPairs(init));
    }
  }

  /** Building a dict from the pairs of distinct keys gives those keys in that
      order, each with its value. */
  lemma {:induction false} ItemsRoundTrip(ks: seq<string>, m: map<string, string>)
    requires Distinct(ks) && forall k :: k in ks ==> k in m
    ensures var r := FromPairs(ItemsOf(ks, m));
      r.keys == ks && forall k :: k in r.entries ==> r.entries[k] == m[k]
  {
    if ks != [] {
      var init, k := ks[..|ks| - 1], ks[|ks| - 1];
      assert ks == init + [k];
      assert Distinct(init) && k !in init;
      ItemsRoundTrip(init, m);
      ItemsOfAppend(init, k, m);
      FromPairsAppend(ItemsOf(init, m), (k, m[k]));
      AppendItem(FromPairs(ItemsOf(init, m)), init, k, m);
    }
  }

  /** The pairs of `init + [k]` are those of `init`, then `k`'s. */
  lemma {:induction false} ItemsOfAppend(init: seq<string>, k: string, m: map<string, string>)
    requires forall x :: x in init + [k] ==> x in m
    ensures ItemsOf(init + [k], m) == ItemsOf(init, m) + [(k, m[k])]
  {
    assert (init + [k])[..|init|] == init;
  }

  /** Building from one more pair puts that pair into the table built so far. */
  lemma {:induction false} FromPairsAppend(ps: seq<(string, string)>, p: (string, string))
    ensures FromPairs(ps + [p]) == Put(FromPairs(ps), p.0, p.1)
  {
    assert (ps + [p])[..|ps|] == ps;
  }

  /** One step of `ItemsRoundTrip`: a new key with its value from `m` goes last. */
  lemma {:induction false} AppendItem(prev: Table, init: seq<string>, k: string, m: map<string, string>)
    requires prev.Valid() && prev.keys == init && k !in init && k in m
    requires forall x :: x in prev.entries ==> x in m && prev.entries[x] == m[x]
    ensures var r := Put(prev, k, m[k]);
      r.keys == init + [k] && forall x :: x in r.entries ==> r.entries[x] == m[x]
  {
  }

  /** Reading back what was saved gives the same table, order included. */
  lemma {:induction false} SaveLoadRoundTrip(t: Table)
    requires t.Valid()
    ensures FromPairs(Items(t)) == t
  {
    ItemsRoundTrip(t.keys, t.entries);
    SameTable(FromPairs(Items(t)), t);
  }

  /** Two well-formed tables with the same keys, in the same order, and the
      same values are one table. */
  lemma {:induction false} SameTable(a: Table, b: Table)
    requires a.Valid() && b.Valid() && a.keys == b.keys
    requires forall k :: k in a.entries ==> a.entries[k] == b.entries[k]
    ensures a == b
  {
    assert a.entries.Keys == b.entries.Keys;
  }
}

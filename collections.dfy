/**
 * PHP ordered arrays with string keys, as the crawler builds them: a sequence
 * of key/value items in insertion order. Assigning `$a[$k] = $v` replaces the
 * value of an existing key where it stands and appends a new key at the end.
 */
module Collections {
  import opened Wrappers

  datatype Item<V> = Item(key: string, value: V)

  type Collection<V> = seq<Item<V>>

  function Keys<V>(c: Collection<V>): (ks: seq<string>)
    ensures |ks| == |c|
    ensures forall i :: 0 <= i < |c| ==> ks[i] == c[i].key
  {
    if c == [] then [] else [c[0].key] + Keys(c[1..])
  }

  /** `$a[$k]`, or `None` when the key is absent. */
  function Get<V>(c: Collection<V>, k: string): Option<V>
  {
    if c == [] then None else if c[0].key == k then Some(c[0].value) else Get(c[1..], k)
  }

  ghost predicate DistinctKeys<V>(c: Collection<V>)
  {
    forall i, j :: 0 <= i < j < |c| ==> c[i].key != c[j].key
  }

  /** Every item is stored under the key its record gives. */
  ghost predicate KeyedBy<V>(c: Collection<V>, keyOf: V -> string)
  {
    forall it :: it in c ==> it.key == keyOf(it.value)
  }

  /** `$a[$k] = $v`. */
  function Put<V>(c: Collection<V>, k: string, v: V): (r: Collection<V>)
    ensures Get(r, k) == Some(v)
  {
    if c == [] then [Item(k, v)]
    else if c[0].key == k then [Item(k, v)] + c[1..]
    else [c[0]] + Put(c[1..], k, v)
  }

  /** An existing key keeps its position; a new key goes to the end. */
  lemma {:induction false} PutKeys<V>(c: Collection<V>, k: string, v: V)
    ensures k in Keys(c) ==> Keys(Put(c, k, v)) == Keys(c)
    ensures k !in Keys(c) ==> Put(c, k, v) == c + [Item(k, v)]
  {
    if c != [] && c[0].key != k {
      PutKeys(c[1..], k, v);
      assert Keys(c) == [c[0].key] + Keys(c[1..]);
      assert c == [c[0]] + c[1..];
    }
  }

  /** Other keys keep their values. */
  lemma {:induction false} PutOthers<V>(c: Collection<V>, k: string, v: V)
    ensures forall k' :: k' != k ==> Get(Put(c, k, v), k') == Get(c, k')
  {
    if c != [] && c[0].key != k {
      PutOthers(c[1..], k, v);
    }
  }

  /** The items after the assignment are the old ones and the new one. */
  lemma {:induction false} PutItems<V>(c: Collection<V>, k: string, v: V)
    ensures forall it :: it in Put(c, k, v) ==> it in c || it == Item(k, v)
  {
    if c != [] && c[0].key != k {
      PutItems(c[1..], k, v);
    }
  }

  lemma DistinctCons<V>(x: Item<V>, t: Collection<V>)
    ensures DistinctKeys([x] + t) <==> x.key !in Keys(t) && DistinctKeys(t)
  {
    var r := [x] + t;
    assert forall i :: 0 < i < |r| ==> r[i] == t[i - 1];
    if x.key !in Keys(t) && DistinctKeys(t) {
      forall i, j | 0 <= i < j < |r| ensures r[i].key != r[j].key {
        if i > 0 {
          assert r[i].key == t[i - 1].key && r[j].key == t[j - 1].key;
        } else {
          assert r[j].key == Keys(t)[j - 1];
        }
      }
    }
    if DistinctKeys(r) {
      forall i, j | 0 <= i < j < |t| ensures t[i].key != t[j].key {
        assert t[i] == r[i + 1] && t[j] == r[j + 1];
      }
      forall i | 0 <= i < |t| ensures Keys(t)[i] != x.key {
        assert r[0] == x && r[i + 1] == t[i];
        assert r[0].key != r[i + 1].key;
      }
    }
  }

  lemma {:induction false} PutDistinct<V>(c: Collection<V>, k: string, v: V)
    requires DistinctKeys(c)
    ensures DistinctKeys(Put(c, k, v))
  {
    if c == [] {
    } else if c[0].key == k {
      DistinctCons(c[0], c[1..]);
      DistinctCons(Item(k, v), c[1..]);
    } else {
      assert c == [c[0]] + c[1..];
      DistinctCons(c[0], c[1..]);
      PutDistinct(c[1..], k, v);
      PutKeys(c[1..], k, v);
      if k !in Keys(c[1..]) {
        assert Keys(c[1..] + [Item(k, v)]) == Keys(c[1..]) + [k];
      }
      DistinctCons(c[0], Put(c[1..], k, v));
    }
  }

  /** The keys of `more` that are not yet among `ks`, added in order of first appearance. */
  function WithNewKeys(ks: seq<string>, more: seq<string>): seq<string>
    decreases |more|
  {
    if more == [] then ks
    else WithNewKeys(if more[0] in ks then ks else ks + [more[0]], more[1..])
  }

  /** The last record of `rs` whose key is `k`. */
  function LastWithKey<V>(rs: seq<V>, keyOf: V -> string, k: string): Option<V>
  {
    if rs == [] then None
    else
      var later := LastWithKey(rs[1..], keyOf, k);
      if later.Some? then later else if keyOf(rs[0]) == k then Some(rs[0]) else None
  }

  function RecordKeys<V>(rs: seq<V>, keyOf: V -> string): (ks: seq<string>)
    ensures |ks| == |rs|
    ensures forall i :: 0 <= i < |rs| ==> ks[i] == keyOf(rs[i])
  {
    if rs == [] then [] else [keyOf(rs[0])] + RecordKeys(rs[1..], keyOf)
  }

  /** `foreach ($rs as $r) { $c[$r[field]] = $r; }` */
  function PutAll<V>(c: Collection<V>, rs: seq<V>, keyOf: V -> string): Collection<V>
    decreases |rs|
  {
    if rs == [] then c else PutAll(Put(c, keyOf(rs[0]), rs[0]), rs[1..], keyOf)
  }

  /** Putting two runs of records is putting their concatenation. */
  lemma {:induction false} PutAllAppend<V>(c: Collection<V>, xs: seq<V>, ys: seq<V>, keyOf: V -> string)
    ensures PutAll(c, xs + ys, keyOf) == PutAll(PutAll(c, xs, keyOf), ys, keyOf)
    decreases |xs|
  {
    if xs == [] {
      assert xs + ys == ys;
    } else {
      assert (xs + ys)[0] == xs[0] && (xs + ys)[1..] == xs[1..] + ys;
      PutAllAppend(Put(c, keyOf(xs[0]), xs[0]), xs[1..], ys, keyOf);
    }
  }

  /** One more turn of the `foreach`. */
  lemma PutAllSnoc<V>(c: Collection<V>, rs: seq<V>, r: V, keyOf: V -> string)
    ensures PutAll(c, rs + [r], keyOf) == Put(PutAll(c, rs, keyOf), keyOf(r), r)
  {
    PutAllAppend(c, rs, [r], keyOf);
    assert [r][1..] == [];
  }

  /** The `foreach` loop itself. */
  method PutEach<V>(c: Collection<V>, rs: seq<V>, keyOf: V -> string) returns (r: Collection<V>)
    ensures r == PutAll(c, rs, keyOf)
  {
    r := c;
    for k := 0 to |rs|
      invariant r == PutAll(c, rs[..k], keyOf)
    {
      PutAllSnoc(c, rs[..k], rs[k], keyOf);
      assert rs[..k + 1] == rs[..k] + [rs[k]];
      r := Put(r, keyOf(rs[k]), rs[k]);
    }
    assert rs[..|rs|] == rs;
  }

  /** Keys keep the order of their first appearance, old keys first. */
  lemma {:induction false} PutAllKeys<V>(c: Collection<V>, rs: seq<V>, keyOf: V -> string)
    ensures Keys(PutAll(c, rs, keyOf)) == WithNewKeys(Keys(c), RecordKeys(rs, keyOf))
    decreases |rs|
  {
    if rs != [] {
      var k0 := keyOf(rs[0]);
      PutKeys(c, k0, rs[0]);
      if k0 !in Keys(c) {
        assert Keys(c + [Item(k0, rs[0])]) == Keys(c) + [k0];
      }
      PutAllKeys(Put(c, k0, rs[0]), rs[1..], keyOf);
      assert RecordKeys(rs, keyOf)[1..] == RecordKeys(rs[1..], keyOf);
    }
  }

  /** Each key ends up holding the last record that has it (a later duplicate overwrites). */
  lemma {:induction false} PutAllLastWins<V>(c: Collection<V>, rs: seq<V>, keyOf: V -> string, k: string)
    ensures Get(PutAll(c, rs, keyOf), k) ==
      if LastWithKey(rs, keyOf, k).Some? then LastWithKey(rs, keyOf, k) else Get(c, k)
    decreases |rs|
  {
    if rs != [] {
      PutOthers(c, keyOf(rs[0]), rs[0]);
      PutAllLastWins(Put(c, keyOf(rs[0]), rs[0]), rs[1..], keyOf, k);
    }
  }

  /** Collections built this way hold every record under the key the record gives. */
  lemma {:induction false} PutAllKeyedBy<V>(c: Collection<V>, rs: seq<V>, keyOf: V -> string)
    requires KeyedBy(c, keyOf)
    ensures KeyedBy(PutAll(c, rs, keyOf), keyOf)
    decreases |rs|
  {
    if rs != [] {
      PutItems(c, keyOf(rs[0]), rs[0]);
      PutAllKeyedBy(Put(c, keyOf(rs[0]), rs[0]), rs[1..], keyOf);
    }
  }

  /** No key is ever stored twice. */
  lemma {:induction false} PutAllDistinct<V>(c: Collection<V>, rs: seq<V>, keyOf: V -> string)
    requires DistinctKeys(c)
    ensures DistinctKeys(PutAll(c, rs, keyOf))
    decreases |rs|
  {
    if rs != [] {
      PutDistinct(c, keyOf(rs[0]), rs[0]);
      PutAllDistinct(Put(c, keyOf(rs[0]), rs[0]), rs[1..], keyOf);
    }
  }
}

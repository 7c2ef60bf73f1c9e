/**
 * `match` and `matchOne` of both crawlers. A pattern is turned into the regular
 * expression `'~' . str_replace('*', '.*', preg_quote($p)) . '~'` and used
 * unanchored. `preg_quote` escapes `*` to `\*`, so the replacement yields `\.*`:
 * every `*` stands for a run of zero or more `.` characters, every other
 * character for itself, and the text may occur anywhere in the key. The matcher
 * below states that rule directly instead of running a regular expression.
 */
module Matcher {
  import opened Wrappers
  import opened Collections

  const Wildcard: char := '*'
  /** The regex delimiter, which `preg_quote` leaves unescaped. */
  const Delimiter: char := '~'

  /** `s` starts with a text the pattern describes. */
  predicate MatchesPrefix(p: string, s: string)
    decreases |p| + |s|
  {
    if p == [] then true
    else if p[0] == Wildcard then
      MatchesPrefix(p[1..], s) || (s != [] && s[0] == '.' && MatchesPrefix(p, s[1..]))
    else s != [] && s[0] == p[0] && MatchesPrefix(p[1..], s[1..])
  }

  /** Some suffix of `s` starts with a text the pattern describes. */
  predicate MatchesSomewhere(p: string, s: string)
  {
    MatchesPrefix(p, s) || (s != [] && MatchesSomewhere(p, s[1..]))
  }

  /**
   * `preg_match` of the pattern's regex against `key`. A pattern holding the
   * delimiter `~` ends the regex early and leaves text behind it that PCRE
   * rejects as modifiers, so `preg_match` fails and nothing matches.
   */
  predicate Matches(p: string, key: string)
  {
    Delimiter !in p && MatchesSomewhere(p, key)
  }

  // An independent reading of the same rule: fill in each `*` with a number of dots.

  function StarCount(p: string): nat
  {
    if p == [] then 0 else (if p[0] == Wildcard then 1 else 0) + StarCount(p[1..])
  }

  function Dots(n: nat): (s: string)
    ensures |s| == n && forall i :: 0 <= i < n ==> s[i] == '.'
  {
    if n == 0 then [] else ['.'] + Dots(n - 1)
  }

  /** The pattern with its `k`-th `*` replaced by `fill[k]` dots. */
  function Instantiate(p: string, fill: seq<nat>): string
    requires |fill| == StarCount(p)
  {
    if p == [] then []
    else if p[0] == Wildcard then Dots(fill[0]) + Instantiate(p[1..], fill[1..])
    else [p[0]] + Instantiate(p[1..], fill)
  }

  ghost predicate IsPrefix(a: string, b: string)
  {
    |a| <= |b| && b[..|a|] == a
  }

  /** Some filling-in of the pattern occurs in `key` at some position. */
  ghost predicate OccursIn(p: string, key: string)
  {
    exists fill: seq<nat>, i: nat :: |fill| == StarCount(p) && i <= |key| && IsPrefix(Instantiate(p, fill), key[i..])
  }

  lemma {:induction false} PrefixSound(p: string, s: string) returns (fill: seq<nat>)
    requires MatchesPrefix(p, s)
    ensures |fill| == StarCount(p) && IsPrefix(Instantiate(p, fill), s)
    decreases |p| + |s|
  {
    if p == [] {
      fill := [];
    } else if p[0] == Wildcard {
      if MatchesPrefix(p[1..], s) {
        var rest := PrefixSound(p[1..], s);
        fill := [0] + rest;
        assert fill[1..] == rest;
      } else {
        var more := PrefixSound(p, s[1..]);
        fill := [more[0] + 1] + more[1..];
        assert fill[1..] == more[1..];
        assert Dots(fill[0]) + Instantiate(p[1..], more[1..]) == ['.'] + Instantiate(p, more);
      }
    } else {
      var rest := PrefixSound(p[1..], s[1..]);
      fill := rest;
    }
  }

  lemma {:induction false} PrefixComplete(p: string, fill: seq<nat>, s: string)
    requires |fill| == StarCount(p) && IsPrefix(Instantiate(p, fill), s)
    ensures MatchesPrefix(p, s)
    decreases |p| + |s|
  {
    if p == [] {
    } else if p[0] == Wildcard {
      if fill[0] == 0 {
        assert Instantiate(p, fill) == Instantiate(p[1..], fill[1..]);
        PrefixComplete(p[1..], fill[1..], s);
      } else {
        var fewer := [fill[0] - 1] + fill[1..];
        assert fewer[1..] == fill[1..];
        assert Instantiate(p, fill) == ['.'] + Instantiate(p, fewer);
        assert s[0] == '.';
        assert s[1..][..|Instantiate(p, fewer)|] == s[..|Instantiate(p, fill)|][1..];
        PrefixComplete(p, fewer, s[1..]);
      }
    } else {
      var rest := Instantiate(p[1..], fill);
      assert Instantiate(p, fill) == [p[0]] + rest;
      assert s[1..][..|rest|] == s[..|rest| + 1][1..];
      PrefixComplete(p[1..], fill, s[1..]);
    }
  }

  lemma {:induction false} SomewherePositions(p: string, s: string)
    ensures MatchesSomewhere(p, s) <==> exists i: nat :: i <= |s| && MatchesPrefix(p, s[i..])
  {
    assert s[0..] == s;
    if s != [] {
      SomewherePositions(p, s[1..]);
      if MatchesSomewhere(p, s[1..]) {
        var i: nat :| i <= |s[1..]| && MatchesPrefix(p, s[1..][i..]);
        assert s[1..][i..] == s[i + 1..];
      }
      if i: nat :| i <= |s| && MatchesPrefix(p, s[i..]) {
        if i > 0 {
          assert s[1..][i - 1..] == s[i..];
        }
      }
    } else {
      if i: nat :| i <= |s| && MatchesPrefix(p, s[i..]) {
        assert i == 0;
      }
    }
  }

  /** The matcher agrees with the filling-in reading of patterns. */
  lemma MatchesIffOccurs(p: string, key: string)
    ensures Matches(p, key) <==> Delimiter !in p && OccursIn(p, key)
  {
    SomewherePositions(p, key);
    if MatchesSomewhere(p, key) {
      var i: nat :| i <= |key| && MatchesPrefix(p, key[i..]);
      var fill := PrefixSound(p, key[i..]);
    }
    if OccursIn(p, key) {
      var fill: seq<nat>, i: nat :| |fill| == StarCount(p) && i <= |key| && IsPrefix(Instantiate(p, fill), key[i..]);
      PrefixComplete(p, fill, key[i..]);
    }
  }

  lemma {:induction false} InstantiateLiteral(p: string)
    requires StarCount(p) == 0
    ensures Instantiate(p, []) == p
  {
    if p != [] {
      InstantiateLiteral(p[1..]);
    }
  }

  /** `p` occurs in `key` starting at position `i`. */
  ghost predicate SubstringAt(p: string, key: string, i: nat)
  {
    i + |p| <= |key| && key[i..i + |p|] == p
  }

  /** A pattern without `*` (and without `~`) matches exactly the keys that contain it. */
  lemma LiteralMatchesSubstring(p: string, key: string)
    requires StarCount(p) == 0 && Delimiter !in p
    ensures Matches(p, key) <==> exists i: nat :: SubstringAt(p, key, i)
  {
    MatchesIffOccurs(p, key);
    InstantiateLiteral(p);
    if OccursIn(p, key) {
      var fill: seq<nat>, i: nat :| |fill| == StarCount(p) && i <= |key| && IsPrefix(Instantiate(p, fill), key[i..]);
      assert fill == [];
      assert key[i..i + |p|] == key[i..][..|p|];
      assert SubstringAt(p, key, i);
    }
    if i: nat :| SubstringAt(p, key, i) {
      assert key[i..][..|p|] == key[i..i + |p|];
      assert IsPrefix(Instantiate(p, []), key[i..]);
    }
  }

  /** The pattern `*` alone matches every key. */
  lemma WildcardMatchesAll(key: string)
    ensures Matches([Wildcard], key)
  {
    assert MatchesPrefix([Wildcard][1..], key);
  }

  /** In `a*b` the star stands for dots only: `ab` and `a..b` match, `axb` does not. */
  lemma StarStandsForDots()
    ensures Matches("a*b", "ab")
    ensures Matches("a*b", "a..b")
  {
    assert "ab"[1..] == "b" && "b"[1..] == [] && "a*b"[1..] == "*b" && "*b"[1..] == "b";
    assert MatchesPrefix("b", "b");
    assert MatchesPrefix("*b", "b");
    assert MatchesPrefix("a*b", "ab");
    assert "a..b"[1..] == "..b" && "..b"[1..] == ".b" && ".b"[1..] == "b";
    assert MatchesPrefix("*b", ".b");
    assert MatchesPrefix("*b", "..b");
    assert MatchesPrefix("a*b", "a..b");
  }

  lemma StarIsNotAnyCharacter()
    ensures !Matches("a*b", "axb")
  {
    assert "axb"[1..] == "xb" && "xb"[1..] == "b" && "b"[1..] == [];
    assert "a*b"[1..] == "*b" && "*b"[1..] == "b";
    assert !MatchesPrefix("b", "xb");
    assert !MatchesPrefix("*b", "xb");
    assert !MatchesPrefix("a*b", "axb");
    assert !MatchesPrefix("a*b", "xb");
    assert !MatchesPrefix("a*b", "b");
    assert !MatchesPrefix("a*b", []);
    assert !MatchesSomewhere("a*b", []);
    assert !MatchesSomewhere("a*b", "b");
    assert !MatchesSomewhere("a*b", "xb");
  }

  /** A pattern without `*` describes exactly itself. */
  lemma {:induction false} LiteralPrefix(p: string, t: string)
    requires Wildcard !in p
    ensures MatchesPrefix(p, p + t)
  {
    if p != [] {
      assert (p + t)[1..] == p[1..] + t;
      LiteralPrefix(p[1..], t);
    }
  }

  /** A match stays a match when text is put in front of the key. */
  lemma {:induction false} SomewhereAfter(pre: string, p: string, key: string)
    requires MatchesSomewhere(p, key)
    ensures MatchesSomewhere(p, pre + key)
  {
    if pre != [] {
      SomewhereAfter(pre[1..], p, key);
      assert (pre + key)[1..] == pre[1..] + key;
    } else {
      assert pre + key == key;
    }
  }

  /** Matching is not anchored: a file name matches a path that ends with it. */
  lemma UnanchoredMatch()
    ensures Matches("README.md", "docs/README.md")
  {
    LiteralPrefix("README.md", []);
    assert "README.md" + [] == "README.md";
    SomewhereAfter("docs/", "README.md", "README.md");
    assert "docs/" + "README.md" == "docs/README.md";
  }

  // Matching a pattern list against a collection.

  /** The items whose key matches `p`, in the collection's order (inner loop). */
  function AltItems<V>(p: string, c: Collection<V>): Collection<V>
  {
    if c == [] then []
    else AltItems(p, c[..|c| - 1]) + (if Matches(p, c[|c| - 1].key) then [c[|c| - 1]] else [])
  }

  /** Alternative after alternative, the items each one matches (outer loop). */
  function MatchedItems<V>(ps: seq<string>, c: Collection<V>): Collection<V>
  {
    if ps == [] then [] else MatchedItems(ps[..|ps| - 1], c) + AltItems(ps[|ps| - 1], c)
  }

  function Values<V>(items: Collection<V>): (vs: seq<V>)
    ensures |vs| == |items| && forall i :: 0 <= i < |items| ==> vs[i] == items[i].value
  {
    if items == [] then [] else Values(items[..|items| - 1]) + [items[|items| - 1].value]
  }

  /** What `match($patterns, $set)` returns. */
  function MatchSpec<V>(ps: seq<string>, c: Collection<V>): seq<V>
  {
    Values(MatchedItems(ps, c))
  }

  /** What `matchOne($patterns, $set)` returns. */
  function MatchOneSpec<V>(ps: seq<string>, c: Collection<V>): Option<V>
  {
    var m := MatchedItems(ps, c);
    if m == [] then None else Some(m[0].value)
  }

  /** One more key of the inner loop. */
  lemma AltItemsStep<V>(p: string, c: Collection<V>, j: nat)
    requires j < |c|
    ensures AltItems(p, c[..j + 1]) == AltItems(p, c[..j]) + (if Matches(p, c[j].key) then [c[j]] else [])
  {
    assert c[..j + 1][..j] == c[..j];
  }

  /** One more alternative of the outer loop. */
  lemma MatchedItemsStep<V>(ps: seq<string>, c: Collection<V>, i: nat)
    requires i < |ps|
    ensures MatchedItems(ps[..i + 1], c) == MatchedItems(ps[..i], c) + AltItems(ps[i], c)
  {
    assert ps[..i + 1][..i] == ps[..i];
  }

  lemma ValuesSnoc<V>(items: Collection<V>, x: Item<V>)
    ensures Values(items + [x]) == Values(items) + [x.value]
  {
    assert (items + [x])[..|items|] == items;
  }

  /** Number of items stored under key `k`. */
  function Occurrences<V>(items: Collection<V>, k: string): nat
  {
    if items == [] then 0
    else Occurrences(items[..|items| - 1], k) + (if items[|items| - 1].key == k then 1 else 0)
  }

  /** Number of alternatives that match `k`. */
  function MatchingAlternatives(ps: seq<string>, k: string): nat
  {
    if ps == [] then 0
    else MatchingAlternatives(ps[..|ps| - 1], k) + (if Matches(ps[|ps| - 1], k) then 1 else 0)
  }

  lemma {:induction false} OccurrencesAppend<V>(a: Collection<V>, b: Collection<V>, k: string)
    ensures Occurrences(a + b, k) == Occurrences(a, k) + Occurrences(b, k)
    decreases |b|
  {
    if b != [] {
      assert (a + b)[..|a + b| - 1] == a + b[..|b| - 1];
      OccurrencesAppend(a, b[..|b| - 1], k);
    } else {
      assert a + b == a;
    }
  }

  lemma InKeys<V>(c: Collection<V>, k: string)
    ensures k in Keys(c) <==> exists j :: 0 <= j < |c| && c[j].key == k
  {
    if j :| 0 <= j < |c| && c[j].key == k {
      assert Keys(c)[j] == k;
    }
  }

  /** Distinct keys, seen from the last item. */
  lemma DistinctLast<V>(c: Collection<V>, k: string)
    requires DistinctKeys(c) && c != []
    ensures var init, last := c[..|c| - 1], c[|c| - 1];
      DistinctKeys(init) && last.key !in Keys(init) && (k in Keys(c) <==> k in Keys(init) || k == last.key)
  {
    var init, last := c[..|c| - 1], c[|c| - 1];
    assert forall j :: 0 <= j < |init| ==> init[j] == c[j];
    InKeys(c, k);
    InKeys(init, k);
    InKeys(init, last.key);
  }

  lemma {:induction false} AltOccurrences<V>(p: string, c: Collection<V>, k: string)
    requires DistinctKeys(c)
    ensures Occurrences(AltItems(p, c), k) == if k in Keys(c) && Matches(p, k) then 1 else 0
  {
    if c != [] {
      var init, last := c[..|c| - 1], c[|c| - 1];
      DistinctLast(c, k);
      AltOccurrences(p, init, k);
      var tail := if Matches(p, last.key) then [last] else [];
      OccurrencesAppend(AltItems(p, init), tail, k);
      assert [last][..0] == [];
      assert Occurrences(tail, k) == if Matches(p, last.key) && last.key == k then 1 else 0;
    }
  }

  /** Duplicates are kept: a key appears once for every alternative that matches it. */
  lemma {:induction false} MatchMultiplicity<V>(ps: seq<string>, c: Collection<V>, k: string)
    requires DistinctKeys(c)
    ensures Occurrences(MatchedItems(ps, c), k) == if k in Keys(c) then MatchingAlternatives(ps, k) else 0
  {
    if ps != [] {
      MatchMultiplicity(ps[..|ps| - 1], c, k);
      AltOccurrences(ps[|ps| - 1], c, k);
      OccurrencesAppend(MatchedItems(ps[..|ps| - 1], c), AltItems(ps[|ps| - 1], c), k);
    }
  }

  lemma {:induction false} AltItemsFromCollection<V>(p: string, c: Collection<V>)
    ensures |AltItems(p, c)| <= |c|
    ensures forall it :: it in AltItems(p, c) ==> it in c && Matches(p, it.key)
  {
    if c != [] {
      AltItemsFromCollection(p, c[..|c| - 1]);
      assert forall it :: it in c[..|c| - 1] ==> it in c;
    }
  }

  /** There are at most |patterns| * |collection| results. */
  lemma {:induction false} MatchedBound<V>(ps: seq<string>, c: Collection<V>)
    ensures |MatchedItems(ps, c)| <= |ps| * |c|
  {
    if ps != [] {
      MatchedBound(ps[..|ps| - 1], c);
      AltItemsFromCollection(ps[|ps| - 1], c);
      assert |ps| * |c| == (|ps| - 1) * |c| + |c|;
    }
  }

  /** Every element of the result is an item of the collection matched by some alternative. */
  lemma {:induction false} MatchedFromCollection<V>(ps: seq<string>, c: Collection<V>)
    ensures forall it :: it in MatchedItems(ps, c) ==>
      it in c && exists i :: 0 <= i < |ps| && Matches(ps[i], it.key)
  {
    if ps != [] {
      var init := ps[..|ps| - 1];
      MatchedFromCollection(init, c);
      AltItemsFromCollection(ps[|ps| - 1], c);
      forall it | it in MatchedItems(ps, c)
        ensures it in c && exists i :: 0 <= i < |ps| && Matches(ps[i], it.key)
      {
        if it in MatchedItems(init, c) {
          var i :| 0 <= i < |init| && Matches(init[i], it.key);
          assert ps[i] == init[i];
        } else {
          assert it in AltItems(ps[|ps| - 1], c);
          assert Matches(ps[|ps| - 1], it.key);
        }
      }
    }
  }

  /** `*` keeps the whole collection, in order. */
  lemma {:induction false} WildcardKeepsAll<V>(c: Collection<V>)
    ensures AltItems([Wildcard], c) == c
    ensures MatchSpec([[Wildcard]], c) == Values(c)
  {
    if c != [] {
      WildcardKeepsAll(c[..|c| - 1]);
      WildcardMatchesAll(c[|c| - 1].key);
    }
    assert [[Wildcard]][..0] == [];
    assert MatchedItems([[Wildcard]], c) == [] + AltItems([Wildcard], c);
    assert [] + c == c;
  }

  lemma {:induction false} AltItemsEmpty<V>(p: string, c: Collection<V>)
    ensures AltItems(p, c) == [] <==> forall j :: 0 <= j < |c| ==> !Matches(p, c[j].key)
  {
    if c != [] {
      AltItemsEmpty(p, c[..|c| - 1]);
      assert forall j :: 0 <= j < |c| - 1 ==> c[..|c| - 1][j] == c[j];
    }
  }

  /** `matchOne` finds nothing exactly when no alternative matches any key. */
  lemma {:induction false} MatchOneNone<V>(ps: seq<string>, c: Collection<V>)
    ensures MatchOneSpec(ps, c).None? <==>
      forall i, j :: 0 <= i < |ps| && 0 <= j < |c| ==> !Matches(ps[i], c[j].key)
  {
    if ps != [] {
      var init := ps[..|ps| - 1];
      MatchOneNone(init, c);
      AltItemsEmpty(ps[|ps| - 1], c);
      assert forall i :: 0 <= i < |init| ==> init[i] == ps[i];
    }
  }

  lemma {:induction false} AltItemsFirst<V>(p: string, c: Collection<V>) returns (j: nat)
    requires AltItems(p, c) != []
    ensures j < |c| && AltItems(p, c)[0] == c[j] && Matches(p, c[j].key)
    ensures forall j' :: 0 <= j' < j ==> !Matches(p, c[j'].key)
  {
    var init := c[..|c| - 1];
    if AltItems(p, init) != [] {
      j := AltItemsFirst(p, init);
    } else {
      AltItemsEmpty(p, init);
      j := |c| - 1;
    }
  }

  /**
   * The element `matchOne` returns: the first key, in collection order, that
   * matches the first alternative that matches any key at all.
   */
  lemma {:induction false} MatchOneFirst<V>(ps: seq<string>, c: Collection<V>) returns (i: nat, j: nat)
    requires MatchOneSpec(ps, c).Some?
    ensures i < |ps| && j < |c| && MatchOneSpec(ps, c) == Some(c[j].value) && Matches(ps[i], c[j].key)
    ensures forall i', j' :: 0 <= i' < i && 0 <= j' < |c| ==> !Matches(ps[i'], c[j'].key)
    ensures forall j' :: 0 <= j' < j ==> !Matches(ps[i], c[j'].key)
  {
    var init := ps[..|ps| - 1];
    if MatchedItems(init, c) != [] {
      i, j := MatchOneFirst(init, c);
    } else {
      MatchOneNone(init, c);
      i := |ps| - 1;
      j := AltItemsFirst(ps[i], c);
      assert forall i' :: 0 <= i' < i ==> init[i'] == ps[i'];
    }
  }

  /** One-letter patterns and keys: a match is equality. */
  lemma SingleLetter(a: char, b: char)
    requires a != Wildcard && a != Delimiter
    ensures Matches([a], [b]) <==> a == b
  {
    assert [b][1..] == [] && [a][1..] == [];
    assert Delimiter !in [a];
    assert !MatchesSomewhere([a], []);
    assert MatchesPrefix([a], [b]) <==> a == b;
    assert MatchesSomewhere([a], [b]) <==> MatchesPrefix([a], [b]);
  }

  /** A one-letter pattern against keys a, b, c selects the item of that letter alone. */
  lemma OneLetterAlternative<V>(p: char, x: V, y: V, z: V)
    requires p == 'a' || p == 'b' || p == 'c'
    ensures var c := [Item("a", x), Item("b", y), Item("c", z)];
      AltItems([p], c) == [c[if p == 'a' then 0 else if p == 'b' then 1 else 2]]
  {
    var c := [Item("a", x), Item("b", y), Item("c", z)];
    SingleLetter(p, 'a');
    SingleLetter(p, 'b');
    SingleLetter(p, 'c');
    assert c[..0] == [] && c[..3] == c;
    AltItemsStep([p], c, 0);
    AltItemsStep([p], c, 1);
    AltItemsStep([p], c, 2);
  }

  /** Alternation: `a|b` against keys a, b, c gives the values of a then b, never c. */
  lemma AlternationExample<V>(x: V, y: V, z: V)
    ensures MatchSpec(["a", "b"], [Item("a", x), Item("b", y), Item("c", z)]) == [x, y]
  {
    var c := [Item("a", x), Item("b", y), Item("c", z)];
    OneLetterAlternative('a', x, y, z);
    OneLetterAlternative('b', x, y, z);
    var ps := ["a", "b"];
    assert ps[..0] == [] && ps[..2] == ps;
    MatchedItemsStep(ps, c, 0);
    MatchedItemsStep(ps, c, 1);
    assert MatchedItems(ps, c) == [Item("a", x)] + [Item("b", y)];
    ValuesSnoc([Item("a", x)], Item("b", y));
    ValuesSnoc([], Item("a", x));
  }

  /** `match`: the nested loop over alternatives and then over the collection's keys. */
  method Match<V>(patterns: seq<string>, collection: Collection<V>) returns (matches: seq<V>)
    ensures matches == MatchSpec(patterns, collection)
  {
    matches := [];
    ghost var items: Collection<V> := [];
    var keys := Keys(collection);
    for i := 0 to |patterns|
      invariant items == MatchedItems(patterns[..i], collection)
      invariant matches == Values(items)
    {
      var singlePattern := patterns[i];
      ghost var before := items;
      for j := 0 to |keys|
        invariant items == before + AltItems(singlePattern, collection[..j])
        invariant matches == Values(items)
      {
        AltItemsStep(singlePattern, collection, j);
        var item := collection[j];
        assert keys[j] == item.key;
        if Matches(singlePattern, keys[j]) {
          ValuesSnoc(items, item);
          assert before + AltItems(singlePattern, collection[..j + 1]) == items + [item];
          matches := matches + [item.value];
          items := items + [item];
        }
      }
      assert collection[..|keys|] == collection;
      MatchedItemsStep(patterns, collection, i);
    }
    assert patterns[..|patterns|] == patterns;
  }

  /** `matchOne`: the first element of `match`, or null when there is none. */
  method MatchOne<V>(patterns: seq<string>, collection: Collection<V>) returns (r: Option<V>)
    ensures r.None? <==> MatchSpec(patterns, collection) == []
    ensures r.Some? ==> r.value == MatchSpec(patterns, collection)[0]
    ensures r == MatchOneSpec(patterns, collection)
  {
    var matches := Match(patterns, collection);
    r := if matches != [] then Some(matches[0]) else None;
  }
}

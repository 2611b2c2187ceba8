/** The frequency count behind the report's summary table.

    The report counts `mood_value` over the entries into a dictionary, whose
    keys keep the order in which they were first inserted, then sorts the
    dictionary's items by descending count with a stable sort. `Tally` is the
    dictionary as a sequence of (value, count) pairs in insertion order and
    `SortByCountDesc` the stable sort. */
module Frequencies {

  /** One item of the frequency dictionary. */
  datatype MoodCount = MoodCount(value: string, count: nat)

  /** How many times `v` occurs in `vs`. */
  function Occurrences(vs: seq<string>, v: string): (n: nat)
    ensures n <= |vs|
    ensures n > 0 <==> v in vs
  {
    if vs == [] then 0
    else
      assert vs == vs[..|vs| - 1] + [vs[|vs| - 1]];
      Occurrences(vs[..|vs| - 1], v) + (if vs[|vs| - 1] == v then 1 else 0)
  }

  /** The distinct values of `vs` in order of first occurrence: the keys of
      the dictionary filled by scanning `vs` from the left. */
  function FirstSeen(vs: seq<string>): (keys: seq<string>)
    ensures forall i, j :: 0 <= i < j < |keys| ==> keys[i] != keys[j]
    ensures forall v :: v in keys <==> v in vs
  {
    if vs == [] then []
    else
      var prefix, last := vs[..|vs| - 1], vs[|vs| - 1];
      assert vs == prefix + [last];
      var seen := FirstSeen(prefix);
      if last in seen then seen else seen + [last]
  }

  /** The index of the first occurrence of `v` in `vs`. */
  function FirstPosition(vs: seq<string>, v: string): (k: nat)
    requires v in vs
    ensures k < |vs| && vs[k] == v
    ensures forall j :: 0 <= j < k ==> vs[j] != v
  {
    if vs[0] == v then 0 else 1 + FirstPosition(vs[1..], v)
  }

  /** Appending to `vs` does not move the first occurrence of a value already
      in it. */
  lemma FirstPositionOfExtension(vs: seq<string>, x: string, v: string)
    requires v in vs
    ensures FirstPosition(vs + [x], v) == FirstPosition(vs, v)
  {
    var k := FirstPosition(vs, v);
    assert (vs + [x])[k] == v;
  }

  /** The keys of the count are ordered by where each value first occurs. */
  lemma {:induction false} FirstSeenFollowsFirstOccurrence(vs: seq<string>)
    ensures forall i, j :: 0 <= i < j < |FirstSeen(vs)| ==>
      FirstPosition(vs, FirstSeen(vs)[i]) < FirstPosition(vs, FirstSeen(vs)[j])
  {
    if vs != [] {
      var prefix, last := vs[..|vs| - 1], vs[|vs| - 1];
      assert vs == prefix + [last];
      var seen := FirstSeen(prefix);
      FirstSeenFollowsFirstOccurrence(prefix);
      var keys := FirstSeen(vs);
      forall i, j | 0 <= i < j < |keys|
        ensures FirstPosition(vs, keys[i]) < FirstPosition(vs, keys[j])
      {
        assert keys[i] in prefix;
        FirstPositionOfExtension(prefix, last, keys[i]);
        if j < |seen| {
          assert keys[j] in prefix;
          FirstPositionOfExtension(prefix, last, keys[j]);
        } else {
          assert keys[j] == last && last !in prefix;
          assert FirstPosition(vs, last) == |prefix|;
        }
      }
    }
  }

  /** The count of each key, in the keys' order. */
  function CountsOf(keys: seq<string>, vs: seq<string>): (r: seq<MoodCount>)
    ensures |r| == |keys|
    ensures forall k :: 0 <= k < |keys| ==> r[k].value == keys[k] && r[k].count == Occurrences(vs, keys[k])
  {
    if keys == [] then [] else [MoodCount(keys[0], Occurrences(vs, keys[0]))] + CountsOf(keys[1..], vs)
  }

  /** Counting one more value adds one to its count and leaves the others. */
  lemma OccurrencesSnoc(vs: seq<string>, x: string, v: string)
    ensures Occurrences(vs + [x], v) == Occurrences(vs, v) + (if x == v then 1 else 0)
  {
    assert (vs + [x])[..|vs|] == vs;
  }

  /** Counting one more value adds it as the last key if it is new. */
  lemma FirstSeenSnoc(vs: seq<string>, x: string)
    ensures FirstSeen(vs + [x]) == if x in FirstSeen(vs) then FirstSeen(vs) else FirstSeen(vs) + [x]
  {
    assert (vs + [x])[..|vs|] == vs;
  }

  /** The frequency dictionary of `vs`, items in insertion order. */
  function Tally(vs: seq<string>): seq<MoodCount>
  {
    CountsOf(FirstSeen(vs), vs)
  }

  /** The sum of the counts. */
  function Sum(s: seq<MoodCount>): nat
  {
    if s == [] then 0 else s[0].count + Sum(s[1..])
  }

  lemma {:induction false} SumAfterOneMoreValue(keys: seq<string>, vs: seq<string>, x: string)
    requires forall i, j :: 0 <= i < j < |keys| ==> keys[i] != keys[j]
    ensures Sum(CountsOf(keys, vs + [x])) == Sum(CountsOf(keys, vs)) + (if x in keys then 1 else 0)
  {
    if keys != [] {
      assert (vs + [x])[..|vs + [x]| - 1] == vs;
      SumAfterOneMoreValue(keys[1..], vs, x);
      assert x in keys <==> x == keys[0] || x in keys[1..];
      assert x == keys[0] ==> x !in keys[1..];
    }
  }

  lemma {:induction false} SumAfterOneMoreKey(keys: seq<string>, y: string, vs: seq<string>)
    ensures Sum(CountsOf(keys + [y], vs)) == Sum(CountsOf(keys, vs)) + Occurrences(vs, y)
  {
    if keys != [] {
      assert (keys + [y])[1..] == keys[1..] + [y];
      SumAfterOneMoreKey(keys[1..], y, vs);
    }
  }

  /** The counts add up to the number of values counted. */
  lemma {:induction false} TallySum(vs: seq<string>)
    ensures Sum(Tally(vs)) == |vs|
  {
    if vs != [] {
      var prefix, last := vs[..|vs| - 1], vs[|vs| - 1];
      assert vs == prefix + [last];
      var seen := FirstSeen(prefix);
      TallySum(prefix);
      SumAfterOneMoreValue(FirstSeen(vs), prefix, last);
      if last !in seen {
        SumAfterOneMoreKey(seen, last, prefix);
      }
    }
  }

  // ---------------------------------------------------------------------------
  // Stable sort by descending count
  // ---------------------------------------------------------------------------

  predicate NonIncreasing(s: seq<MoodCount>)
  {
    forall i, j :: 0 <= i < j < |s| ==> s[i].count >= s[j].count
  }

  /** No value occurs twice. */
  predicate DistinctCountValues(s: seq<MoodCount>)
  {
    forall i, j :: 0 <= i < j < |s| ==> s[i].value != s[j].value
  }

  /** The item itself when its count is `c`, nothing otherwise. */
  function KeepIf(x: MoodCount, c: nat): seq<MoodCount>
  {
    if x.count == c then [x] else []
  }

  /** The items with count `c`, in order. */
  function WithCount(s: seq<MoodCount>, c: nat): seq<MoodCount>
  {
    if s == [] then [] else KeepIf(s[0], c) + WithCount(s[1..], c)
  }

  lemma WithCountCons(x: MoodCount, s: seq<MoodCount>, c: nat)
    ensures WithCount([x] + s, c) == KeepIf(x, c) + WithCount(s, c)
  {
    assert ([x] + s)[0] == x && ([x] + s)[1..] == s;
  }

  /** Insertion before the first item whose count is not larger, so that an
      item precedes the equal-count items that came after it in the input. */
  function InsertByCount(x: MoodCount, s: seq<MoodCount>): (r: seq<MoodCount>)
    ensures multiset(r) == multiset(s) + multiset{x}
  {
    if s == [] || x.count >= s[0].count then [x] + s
    else
      assert s == [s[0]] + s[1..];
      [s[0]] + InsertByCount(x, s[1..])
  }

  /** `sorted(items, key=lambda x: -x[1])`. */
  function SortByCountDesc(s: seq<MoodCount>): (r: seq<MoodCount>)
    ensures multiset(r) == multiset(s)
  {
    if s == [] then []
    else
      assert s == [s[0]] + s[1..];
      InsertByCount(s[0], SortByCountDesc(s[1..]))
  }

  lemma {:induction false} InsertByCountNonIncreasing(x: MoodCount, s: seq<MoodCount>)
    requires NonIncreasing(s)
    ensures NonIncreasing(InsertByCount(x, s))
  {
    if s != [] && x.count < s[0].count {
      var rest := InsertByCount(x, s[1..]);
      InsertByCountNonIncreasing(x, s[1..]);
      forall k | 0 <= k < |rest| ensures s[0].count >= rest[k].count {
        assert rest[k] in multiset(rest);
        if rest[k] != x {
          assert rest[k] in multiset(s[1..]);
          var m :| 0 <= m < |s[1..]| && s[1..][m] == rest[k];
          assert s[m + 1] == rest[k];
        }
      }
    }
  }

  /** The summary rows come out by non-increasing count. */
  lemma {:induction false} SortByCountDescNonIncreasing(s: seq<MoodCount>)
    ensures NonIncreasing(SortByCountDesc(s))
  {
    if s != [] {
      SortByCountDescNonIncreasing(s[1..]);
      InsertByCountNonIncreasing(s[0], SortByCountDesc(s[1..]));
    }
  }

  /** Two items of different counts are never both kept, so their order
      does not matter to `WithCount`. */
  lemma KeepIfSwap(x: MoodCount, y: MoodCount, w: seq<MoodCount>, c: nat)
    requires x.count != y.count
    ensures KeepIf(x, c) + (KeepIf(y, c) + w) == KeepIf(y, c) + (KeepIf(x, c) + w)
  {
    if x.count == c {
      assert KeepIf(y, c) == [];
    } else {
      assert KeepIf(x, c) == [];
    }
  }

  lemma {:induction false} InsertByCountStable(x: MoodCount, s: seq<MoodCount>, c: nat)
    ensures WithCount(InsertByCount(x, s), c) == WithCount([x] + s, c)
  {
    if s != [] && x.count < s[0].count {
      var rest := InsertByCount(x, s[1..]);
      var w := WithCount(s[1..], c);
      calc {
        WithCount(InsertByCount(x, s), c);
        WithCount([s[0]] + rest, c);
        { WithCountCons(s[0], rest, c); }
        KeepIf(s[0], c) + WithCount(rest, c);
        { InsertByCountStable(x, s[1..], c); WithCountCons(x, s[1..], c); }
        KeepIf(s[0], c) + (KeepIf(x, c) + w);
        { KeepIfSwap(s[0], x, w, c); }
        KeepIf(x, c) + (KeepIf(s[0], c) + w);
        { WithCountCons(s[0], s[1..], c); assert [s[0]] + s[1..] == s; }
        KeepIf(x, c) + WithCount(s, c);
        { WithCountCons(x, s, c); }
        WithCount([x] + s, c);
      }
    }
  }

  /** Stability: the items of any one count keep their input order. */
  lemma {:induction false} SortByCountDescStable(s: seq<MoodCount>, c: nat)
    ensures WithCount(SortByCountDesc(s), c) == WithCount(s, c)
  {
    if s != [] {
      SortByCountDescStable(s[1..], c);
      InsertByCountStable(s[0], SortByCountDesc(s[1..]), c);
      WithCountCons(s[0], SortByCountDesc(s[1..]), c);
      WithCountCons(s[0], s[1..], c);
      assert s == [s[0]] + s[1..];
    }
  }

  lemma {:induction false} InsertByCountSum(x: MoodCount, s: seq<MoodCount>)
    ensures Sum(InsertByCount(x, s)) == x.count + Sum(s)
  {
    if s != [] && x.count < s[0].count {
      InsertByCountSum(x, s[1..]);
    }
  }

  /** Sorting keeps the total. */
  lemma {:induction false} SortByCountDescSum(s: seq<MoodCount>)
    ensures Sum(SortByCountDesc(s)) == Sum(s)
  {
    if s != [] {
      SortByCountDescSum(s[1..]);
      InsertByCountSum(s[0], SortByCountDesc(s[1..]));
    }
  }

  lemma {:induction false} InsertByCountDistinct(x: MoodCount, s: seq<MoodCount>)
    requires DistinctCountValues([x] + s)
    ensures DistinctCountValues(InsertByCount(x, s))
  {
    if s != [] && x.count < s[0].count {
      assert DistinctCountValues([x] + s[1..]) by {
        forall i, j | 0 <= i < j < |[x] + s[1..]|
          ensures ([x] + s[1..])[i].value != ([x] + s[1..])[j].value
        {
          assert ([x] + s[1..])[j] == ([x] + s)[j + 1];
          assert ([x] + s[1..])[i] == ([x] + s)[if i == 0 then 0 else i + 1];
        }
      }
      InsertByCountDistinct(x, s[1..]);
      var rest := InsertByCount(x, s[1..]);
      forall k | 0 <= k < |rest| ensures s[0].value != rest[k].value {
        assert rest[k] in multiset(rest);
        if rest[k] == x {
          assert ([x] + s)[0] == x && ([x] + s)[1] == s[0];
        } else {
          assert rest[k] in multiset(s[1..]);
          var m :| 0 <= m < |s[1..]| && s[1..][m] == rest[k];
          assert ([x] + s)[1] == s[0] && ([x] + s)[m + 2] == rest[k];
        }
      }
    }
  }

  /** Dropping the first item keeps the values distinct. */
  lemma DistinctTail(s: seq<MoodCount>)
    requires s != [] && DistinctCountValues(s)
    ensures DistinctCountValues(s[1..])
  {
    forall i, j | 0 <= i < j < |s[1..]| ensures s[1..][i].value != s[1..][j].value {
      assert s[1..][i] == s[i + 1] && s[1..][j] == s[j + 1];
    }
  }

  /** The first value of a list without repeats is not in its sorted tail. */
  lemma HeadNotInSortedTail(s: seq<MoodCount>, k: nat)
    requires s != [] && DistinctCountValues(s)
    requires k < |SortByCountDesc(s[1..])|
    ensures SortByCountDesc(s[1..])[k].value != s[0].value
  {
    var y := SortByCountDesc(s[1..])[k];
    assert y in multiset(SortByCountDesc(s[1..]));
    assert y in multiset(s[1..]);
    var m :| 0 <= m < |s[1..]| && s[1..][m] == y;
    assert s[m + 1] == y;
  }

  /** An item whose value is new to a list without repeats can go in front. */
  lemma ConsDistinct(x: MoodCount, t: seq<MoodCount>)
    requires DistinctCountValues(t)
    requires forall k :: 0 <= k < |t| ==> t[k].value != x.value
    ensures DistinctCountValues([x] + t)
  {
    forall i, j | 0 <= i < j < |[x] + t| ensures ([x] + t)[i].value != ([x] + t)[j].value {
      assert ([x] + t)[j] == t[j - 1];
      if i > 0 {
        assert ([x] + t)[i] == t[i - 1];
      }
    }
  }

  /** Putting the first item back in front of its sorted tail keeps the
      values distinct. */
  lemma HeadBeforeSortedTail(s: seq<MoodCount>)
    requires s != [] && DistinctCountValues(s)
    requires DistinctCountValues(SortByCountDesc(s[1..]))
    ensures DistinctCountValues([s[0]] + SortByCountDesc(s[1..]))
  {
    forall k | 0 <= k < |SortByCountDesc(s[1..])|
      ensures SortByCountDesc(s[1..])[k].value != s[0].value
    {
      HeadNotInSortedTail(s, k);
    }
    ConsDistinct(s[0], SortByCountDesc(s[1..]));
  }

  /** Sorting keeps each value once. */
  lemma {:induction false} SortByCountDescDistinct(s: seq<MoodCount>)
    requires DistinctCountValues(s)
    ensures DistinctCountValues(SortByCountDesc(s))
  {
    if s != [] {
      DistinctTail(s);
      SortByCountDescDistinct(s[1..]);
      HeadBeforeSortedTail(s);
      var sorted := SortByCountDesc(s[1..]);
      InsertByCountDistinct(s[0], sorted);
    }
  }

  // ---------------------------------------------------------------------------
  // The summary's counts
  // ---------------------------------------------------------------------------

  /** An item of the frequency table is a counted value with its count. */
  lemma TallyItemIsCounted(vs: seq<string>, item: MoodCount)
    requires item in Tally(vs)
    ensures item.value in vs && item.count == Occurrences(vs, item.value)
  {
    var tally := Tally(vs);
    var m :| 0 <= m < |tally| && tally[m] == item;
  }

  /** A counted value has an item in the sorted table. */
  lemma CountedValueHasItem(vs: seq<string>, i: nat)
    requires i < |vs|
    ensures exists k :: 0 <= k < |SortByCountDesc(Tally(vs))| && SortByCountDesc(Tally(vs))[k].value == vs[i]
  {
    var tally := Tally(vs);
    var items := SortByCountDesc(tally);
    var keys := FirstSeen(vs);
    assert vs[i] in keys;
    var m :| 0 <= m < |keys| && keys[m] == vs[i];
    assert tally[m] in multiset(items);
    var k :| 0 <= k < |items| && items[k] == tally[m];
  }

  /** Every item of the sorted table is a counted value with its number of
      occurrences, and every counted value has an item. */
  lemma SortedTallyCoversValues(vs: seq<string>)
    ensures var items := SortByCountDesc(Tally(vs));
      && (forall k :: 0 <= k < |items| ==> items[k].value in vs && items[k].count == Occurrences(vs, items[k].value))
      && (forall i :: 0 <= i < |vs| ==> exists k :: 0 <= k < |items| && items[k].value == vs[i])
  {
    var items := SortByCountDesc(Tally(vs));
    forall k | 0 <= k < |items|
      ensures items[k].value in vs && items[k].count == Occurrences(vs, items[k].value)
    {
      assert items[k] in multiset(Tally(vs));
      TallyItemIsCounted(vs, items[k]);
    }
    forall i | 0 <= i < |vs| ensures exists k :: 0 <= k < |items| && items[k].value == vs[i] {
      CountedValueHasItem(vs, i);
    }
  }

  /** The sorted table is empty exactly when nothing was counted. */
  lemma SortedTallyEmpty(vs: seq<string>)
    ensures SortByCountDesc(Tally(vs)) == [] <==> vs == []
  {
    var tally := Tally(vs);
    var items := SortByCountDesc(tally);
    assert |items| == |multiset(items)| == |multiset(tally)| == |tally|;
    if vs != [] {
      assert vs[0] in FirstSeen(vs);
    }
  }

  /** The sorted frequency table of `vs`: every counted value exactly once,
      with its number of occurrences; the counts add up to `|vs|`; the items
      come by non-increasing count, and items of equal count keep the order
      in which their values first occur in `vs`; the table is empty exactly
      when `vs` is. */
  lemma SortedTallyFacts(vs: seq<string>)
    ensures var items := SortByCountDesc(Tally(vs));
      && Sum(items) == |vs|
      && DistinctCountValues(items)
      && (forall k :: 0 <= k < |items| ==> items[k].value in vs && items[k].count == Occurrences(vs, items[k].value))
      && (forall i :: 0 <= i < |vs| ==> exists k :: 0 <= k < |items| && items[k].value == vs[i])
      && NonIncreasing(items)
      && (forall c :: WithCount(items, c) == WithCount(Tally(vs), c))
      && (forall i, j :: 0 <= i < j < |Tally(vs)| ==>
            FirstPosition(vs, Tally(vs)[i].value) < FirstPosition(vs, Tally(vs)[j].value))
      && (items == [] <==> vs == [])
  {
    var tally := Tally(vs);
    TallySum(vs);
    SortByCountDescSum(tally);
    SortByCountDescDistinct(tally);
    SortByCountDescNonIncreasing(tally);
    FirstSeenFollowsFirstOccurrence(vs);
    forall c ensures WithCount(SortByCountDesc(tally), c) == WithCount(tally, c) {
      SortByCountDescStable(tally, c);
    }
    SortedTallyCoversValues(vs);
    SortedTallyEmpty(vs);
  }

  /** Counting a, b, a gives a: 2, b: 1, and the sort keeps that order. */
  lemma TallyExample(a: string, b: string)
    requires a != b
    ensures Tally([a, b, a]) == [MoodCount(a, 2), MoodCount(b, 1)]
    ensures SortByCountDesc(Tally([a, b, a])) == [MoodCount(a, 2), MoodCount(b, 1)]
  {
    var vs := [a, b, a];
    FirstSeenExample(a, b);
    OccurrencesExample(a, b);
    var counts := [MoodCount(a, 2), MoodCount(b, 1)];
    var tally := CountsOf([a, b], vs);
    assert |tally| == 2 && tally[0] == counts[0] && tally[1] == counts[1];
    SortTwoExample(counts[0], counts[1]);
  }

  lemma FirstSeenExample(a: string, b: string)
    requires a != b
    ensures FirstSeen([a, b, a]) == [a, b]
  {
    var v1, v2, v3 := [a], [a, b], [a, b, a];
    assert v1[..0] == [] && v2[..1] == v1 && v3[..2] == v2;
    var none: seq<string> := [];
    assert FirstSeen(none) == [] && none + [a] == v1;
    var k1 := FirstSeen(v1);
    assert k1 == [a];
    var k2 := FirstSeen(v2);
    assert b !in k1;
    assert k2 == [a, b];
    assert a in k2;
  }

  lemma OccurrencesExample(a: string, b: string)
    requires a != b
    ensures Occurrences([a, b, a], a) == 2 && Occurrences([a, b, a], b) == 1
  {
    var v1, v2, v3 := [a], [a, b], [a, b, a];
    assert v1[..0] == [] && v2[..1] == v1 && v3[..2] == v2;
    assert Occurrences(v1, a) == 1 && Occurrences(v1, b) == 0;
    assert Occurrences(v2, a) == 1 && Occurrences(v2, b) == 1;
  }

  lemma SortTwoExample(x: MoodCount, y: MoodCount)
    requires x.count > y.count
    ensures SortByCountDesc([x, y]) == [x, y]
  {
    assert [x, y][1..] == [y] && [y][1..] == [];
    assert SortByCountDesc([y]) == [y];
    assert InsertByCount(x, [y]) == [x, y];
  }
}

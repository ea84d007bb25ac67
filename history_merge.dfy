/** `mergeAndDeduplicate` of src/api.ts: the full history and the date-range history
    joined, deduplicated on (alertDate, data, category) and sorted newest first. */
module HistoryMerge {
  import opened Wrappers
  import opened Sequences
  import opened Text
  import opened Types

  /** The triple `mergeAndDeduplicate` deduplicates on. The source joins it into one
      string with `|` (`KeyString`); `KeyStringInjective` shows the two agree. */
  type DedupKey = (string, string, int)

  function Key(a: HistoryAlert): DedupKey {
    (a.alertDate, a.data, a.category)
  }

  /** The string key `addUnique` builds: `${alertDate}|${data}|${category}`. */
  function KeyString(a: HistoryAlert): string {
    a.alertDate + "|" + a.data + "|" + IntToString(a.category)
  }

  /** As long as no `alertDate` holds a `|`, the joined string separates records exactly
      as the triple does: the date ends at the first `|` and the category starts after
      the last one, so `data` may hold any character. */
  lemma KeyStringInjective(a: HistoryAlert, b: HistoryAlert)
    requires '|' !in a.alertDate && '|' !in b.alertDate
    ensures KeyString(a) == KeyString(b) <==> Key(a) == Key(b)
  {
    if KeyString(a) == KeyString(b) {
      KeyStringParts(a);
      KeyStringParts(b);
      IntToStringInjective(a.category, b.category);
    }
  }

  lemma KeyStringParts(a: HistoryAlert)
    requires '|' !in a.alertDate
    ensures SplitFirst(KeyString(a), '|') == (a.alertDate, a.data + "|" + IntToString(a.category))
    ensures SplitLast(a.data + "|" + IntToString(a.category), '|') == (a.data, IntToString(a.category))
  {
    var tail := a.data + "|" + IntToString(a.category);
    assert KeyString(a) == a.alertDate + ['|'] + tail;
    SplitFirstOfJoin(a.alertDate, '|', tail);
    IntToStringChars(a.category);
    assert tail == a.data + ['|'] + IntToString(a.category);
    SplitLastOfJoin(a.data, '|', IntToString(a.category));
  }

  /** A date holding `|` lets two different records share one string key. */
  lemma KeyStringCollision()
    ensures var a := HistoryAlert("1|2", 0, "3", 1, None, None, None, None);
      var b := HistoryAlert("1", 0, "2|3", 1, None, None, None, None);
      KeyString(a) == KeyString(b) && Key(a) != Key(b)
  {
  }

  /** The keys of the records of `s`. */
  function Keys(s: seq<HistoryAlert>): set<DedupKey>
    decreases |s|
  {
    if s == [] then {} else {Key(s[0])} + Keys(s[1..])
  }

  lemma {:induction false} KeysOfMembers(s: seq<HistoryAlert>)
    ensures forall a :: a in s ==> Key(a) in Keys(s)
    ensures forall k :: k in Keys(s) ==> exists a :: a in s && Key(a) == k
    decreases |s|
  {
    if s != [] {
      KeysOfMembers(s[1..]);
      assert forall a :: a in s ==> a == s[0] || a in s[1..];
    }
  }

  lemma KeysCons(x: HistoryAlert, s: seq<HistoryAlert>)
    ensures Keys([x] + s) == {Key(x)} + Keys(s)
  {
    assert ([x] + s)[1..] == s;
  }

  lemma {:induction false} KeysAppend(a: seq<HistoryAlert>, b: seq<HistoryAlert>)
    ensures Keys(a + b) == Keys(a) + Keys(b)
    decreases |a|
  {
    if a != [] {
      KeysAppend(a[1..], b);
      assert (a + b)[1..] == a[1..] + b;
    } else {
      assert a + b == b;
    }
  }

  predicate NoDuplicateKeys(s: seq<HistoryAlert>) {
    forall i, j :: 0 <= i < j < |s| ==> Key(s[i]) != Key(s[j])
  }

  lemma NoDuplicateKeysCons(x: HistoryAlert, s: seq<HistoryAlert>)
    requires NoDuplicateKeys(s) && Key(x) !in Keys(s)
    ensures NoDuplicateKeys([x] + s)
  {
    KeysOfMembers(s);
    var t := [x] + s;
    forall i, j | 0 <= i < j < |t| ensures Key(t[i]) != Key(t[j]) {
      assert t[j] == s[j - 1] && t[j] in s;
      if i > 0 {
        assert t[i] == s[i - 1];
      }
    }
  }

  /** Non-increasing in time: the newest record comes first. */
  predicate NewestFirst(s: seq<HistoryAlert>) {
    forall i, j :: 0 <= i < j < |s| ==> s[i].time >= s[j].time
  }

  /** `a` is the first record of `s` that has its key. */
  predicate FirstWithKey(a: HistoryAlert, s: seq<HistoryAlert>) {
    exists i :: 0 <= i < |s| && s[i] == a && forall j :: 0 <= j < i ==> Key(s[j]) != Key(a)
  }

  /** The records of `s` whose key is neither in `seen` nor on an earlier record:
      what the `seen` set and `addUnique` of `mergeAndDeduplicate` keep. */
  function Dedup(s: seq<HistoryAlert>, seen: set<DedupKey>): seq<HistoryAlert>
    decreases |s|
  {
    if s == [] then []
    else if Key(s[0]) in seen then Dedup(s[1..], seen)
    else [s[0]] + Dedup(s[1..], seen + {Key(s[0])})
  }

  /** `Dedup` keeps, in order, one record for every key of `s` that is not in `seen`. */
  lemma {:induction false} DedupProperties(s: seq<HistoryAlert>, seen: set<DedupKey>)
    ensures Keys(Dedup(s, seen)) == Keys(s) - seen
    ensures NoDuplicateKeys(Dedup(s, seen))
    ensures IsSubsequence(Dedup(s, seen), s)
    decreases |s|
  {
    if s != [] {
      KeysCons(s[0], s[1..]);
      assert [s[0]] + s[1..] == s;
      if Key(s[0]) in seen {
        var r := Dedup(s[1..], seen);
        DedupProperties(s[1..], seen);
        SuffixIsSubsequence(s, 1);
        SubsequenceTransitive(r, s[1..], s);
      } else {
        var rest := Dedup(s[1..], seen + {Key(s[0])});
        DedupProperties(s[1..], seen + {Key(s[0])});
        KeysCons(s[0], rest);
        NoDuplicateKeysCons(s[0], rest);
        assert ([s[0]] + rest)[1..] == rest;
      }
    }
  }

  /** The first occurrence in `s[1..]` is one in `s` when the key differs from `s[0]`'s. */
  lemma FirstWithKeyInTail(a: HistoryAlert, s: seq<HistoryAlert>)
    requires s != [] && FirstWithKey(a, s[1..]) && Key(s[0]) != Key(a)
    ensures FirstWithKey(a, s)
  {
    var i :| 0 <= i < |s[1..]| && s[1..][i] == a && forall j :: 0 <= j < i ==> Key(s[1..][j]) != Key(a);
    assert s[i + 1] == a;
    forall j | 0 <= j < i + 1 ensures Key(s[j]) != Key(a) {
      if j > 0 {
        assert s[j] == s[1..][j - 1];
      }
    }
  }

  /** Each kept record is the first occurrence of its key. */
  lemma {:induction false} DedupKeepsFirst(s: seq<HistoryAlert>, seen: set<DedupKey>)
    ensures forall a :: a in Dedup(s, seen) ==> Key(a) !in seen && FirstWithKey(a, s)
    decreases |s|
  {
    if s != [] {
      var r := Dedup(s, seen);
      KeysOfMembers(r);
      if Key(s[0]) in seen {
        DedupKeepsFirst(s[1..], seen);
        forall a | a in r ensures Key(a) !in seen && FirstWithKey(a, s) {
          FirstWithKeyInTail(a, s);
        }
      } else {
        var seen' := seen + {Key(s[0])};
        DedupKeepsFirst(s[1..], seen');
        forall a | a in r ensures Key(a) !in seen && FirstWithKey(a, s) {
          if a != s[0] {
            assert a in Dedup(s[1..], seen');
            FirstWithKeyInTail(a, s);
          } else {
            assert s[0] == a;
          }
        }
      }
    }
  }

  /** Puts `x` in front of the first record that is not newer than it. Since `x` goes
      ahead of equally old records, sorting with it is stable, as `Array.prototype.sort` is. */
  function InsertNewest(x: HistoryAlert, s: seq<HistoryAlert>): (r: seq<HistoryAlert>)
    ensures multiset(r) == multiset(s) + multiset{x}
    decreases |s|
  {
    if s == [] || s[0].time <= x.time then [x] + s
    else
      assert s == [s[0]] + s[1..];
      [s[0]] + InsertNewest(x, s[1..])
  }

  lemma {:induction false} InsertNewestKeepsOrder(x: HistoryAlert, s: seq<HistoryAlert>)
    requires NewestFirst(s)
    ensures NewestFirst(InsertNewest(x, s))
    decreases |s|
  {
    if s != [] && s[0].time > x.time {
      var rest := InsertNewest(x, s[1..]);
      InsertNewestKeepsOrder(x, s[1..]);
      NewestFirstHead(s);
      SameMembersSameKeys(rest, s[1..] + [x]);
      forall a | a in rest ensures a.time <= s[0].time {
        assert a in s[1..] + [x];
        if a != x {
          assert a in s[1..];
        }
      }
      var r := [s[0]] + rest;
      assert r[1..] == rest && r[0] == s[0];
      NewestFirstCons(r);
      assert r == InsertNewest(x, s);
    }
  }

  lemma SameMembersSameKeys(a: seq<HistoryAlert>, b: seq<HistoryAlert>)
    requires multiset(a) == multiset(b)
    ensures forall x :: x in a <==> x in b
    ensures Keys(a) == Keys(b)
  {
    assert forall x :: x in a <==> x in multiset(a);
    assert forall x :: x in b <==> x in multiset(b);
    KeysOfMembers(a);
    KeysOfMembers(b);
  }

  /** A list without repeated keys: its head's key is not in its tail, which has none either. */
  lemma NoDuplicateKeysSplit(s: seq<HistoryAlert>)
    requires s != [] && NoDuplicateKeys(s)
    ensures NoDuplicateKeys(s[1..]) && Key(s[0]) !in Keys(s[1..])
  {
    forall i, j | 0 <= i < j < |s[1..]| ensures Key(s[1..][i]) != Key(s[1..][j]) {
      assert s[1..][i] == s[i + 1] && s[1..][j] == s[j + 1];
    }
    KeysOfMembers(s[1..]);
    forall a | a in s[1..] ensures Key(a) != Key(s[0]) {
      var k :| 0 <= k < |s[1..]| && s[1..][k] == a;
      assert s[k + 1] == a;
    }
  }

  /** In a newest-first list no later record is newer than the head. */
  lemma NewestFirstHead(s: seq<HistoryAlert>)
    requires s != [] && NewestFirst(s)
    ensures forall a :: a in s[1..] ==> a.time <= s[0].time
  {
    forall a | a in s[1..] ensures a.time <= s[0].time {
      var k :| 0 <= k < |s[1..]| && s[1..][k] == a;
      assert s[k + 1] == a;
    }
  }

  lemma {:induction false} InsertNewestKeepsKeysDistinct(x: HistoryAlert, s: seq<HistoryAlert>)
    requires NoDuplicateKeys(s) && Key(x) !in Keys(s)
    ensures NoDuplicateKeys(InsertNewest(x, s))
    decreases |s|
  {
    if s == [] || s[0].time <= x.time {
      NoDuplicateKeysCons(x, s);
    } else {
      var rest := InsertNewest(x, s[1..]);
      KeysCons(s[0], s[1..]);
      assert [s[0]] + s[1..] == s;
      NoDuplicateKeysSplit(s);
      InsertNewestKeepsKeysDistinct(x, s[1..]);
      SameMembersSameKeys(rest, s[1..] + [x]);
      KeysAppend(s[1..], [x]);
      KeysCons(x, []);
      NoDuplicateKeysCons(s[0], rest);
    }
  }

  /** `merged.sort((a, b) => time(b) - time(a))`: a stable newest-first sort. */
  function SortNewestFirst(s: seq<HistoryAlert>): (r: seq<HistoryAlert>)
    ensures multiset(r) == multiset(s)
    ensures NewestFirst(r)
    decreases |s|
  {
    if s == [] then []
    else
      var sorted := SortNewestFirst(s[1..]);
      assert s == [s[0]] + s[1..];
      InsertNewestKeepsOrder(s[0], sorted);
      InsertNewest(s[0], sorted)
  }

  lemma {:induction false} SortKeepsKeysDistinct(s: seq<HistoryAlert>)
    requires NoDuplicateKeys(s)
    ensures NoDuplicateKeys(SortNewestFirst(s))
    decreases |s|
  {
    if s != [] {
      var sorted := SortNewestFirst(s[1..]);
      NoDuplicateKeysSplit(s);
      SortKeepsKeysDistinct(s[1..]);
      SameMembersSameKeys(sorted, s[1..]);
      InsertNewestKeepsKeysDistinct(s[0], sorted);
    }
  }

  /** The records of `s` whose time is `t`, in their order in `s`. */
  function AtTime(s: seq<HistoryAlert>, t: int): seq<HistoryAlert>
    decreases |s|
  {
    if s == [] then []
    else if s[0].time == t then [s[0]] + AtTime(s[1..], t)
    else AtTime(s[1..], t)
  }

  /** Inserting `x` puts it ahead of every record as old as it and changes no other tie. */
  lemma {:induction false} InsertNewestAtTime(x: HistoryAlert, s: seq<HistoryAlert>, t: int)
    ensures AtTime(InsertNewest(x, s), t) == (if x.time == t then [x] + AtTime(s, t) else AtTime(s, t))
    decreases |s|
  {
    var r := InsertNewest(x, s);
    if s == [] || s[0].time <= x.time {
      assert r[0] == x && r[1..] == s;
    } else {
      var rest := InsertNewest(x, s[1..]);
      InsertNewestAtTime(x, s[1..], t);
      assert r[0] == s[0] && r[1..] == rest;
      if s[0].time == t {
        assert AtTime(r, t) == [s[0]] + AtTime(rest, t);
        assert AtTime(s, t) == [s[0]] + AtTime(s[1..], t);
      } else {
        assert AtTime(r, t) == AtTime(rest, t);
        assert AtTime(s, t) == AtTime(s[1..], t);
      }
    }
  }

  /** The sort is stable: records with the same time keep their relative input order.
      This fixes which of two equally new records of a city is reported as the latest. */
  lemma {:induction false} SortIsStable(s: seq<HistoryAlert>, t: int)
    ensures AtTime(SortNewestFirst(s), t) == AtTime(s, t)
    decreases |s|
  {
    if s != [] {
      var sorted := SortNewestFirst(s[1..]);
      SortIsStable(s[1..], t);
      InsertNewestAtTime(s[0], sorted, t);
      assert SortNewestFirst(s) == InsertNewest(s[0], sorted);
    }
  }

  lemma NewestFirstCons(s: seq<HistoryAlert>)
    requires s != [] && NewestFirst(s[1..])
    requires forall a :: a in s[1..] ==> a.time <= s[0].time
    ensures NewestFirst(s)
  {
    forall i, j | 0 <= i < j < |s| ensures s[i].time >= s[j].time {
      assert s[j] == s[1..][j - 1] && s[j] in s[1..];
      if i > 0 {
        assert s[i] == s[1..][i - 1];
      }
    }
  }

  /** Dropping records keeps a list newest first. */
  lemma {:induction false} SubsequenceNewestFirst(a: seq<HistoryAlert>, b: seq<HistoryAlert>)
    requires IsSubsequence(a, b) && NewestFirst(b)
    ensures NewestFirst(a)
    decreases |b|
  {
    if a != [] {
      assert NewestFirst(b[1..]) by {
        forall i, j | 0 <= i < j < |b[1..]| ensures b[1..][i].time >= b[1..][j].time {
          assert b[1..][i] == b[i + 1] && b[1..][j] == b[j + 1];
        }
      }
      if a[0] == b[0] && IsSubsequence(a[1..], b[1..]) {
        SubsequenceNewestFirst(a[1..], b[1..]);
        SubsequenceMembers(a[1..], b[1..]);
        NewestFirstHead(b);
        NewestFirstCons(a);
      } else {
        SubsequenceNewestFirst(a, b[1..]);
      }
    }
  }

  /** Dropping records keeps the keys distinct. */
  lemma {:induction false} SubsequenceKeysDistinct(a: seq<HistoryAlert>, b: seq<HistoryAlert>)
    requires IsSubsequence(a, b) && NoDuplicateKeys(b)
    ensures NoDuplicateKeys(a)
    decreases |b|
  {
    if a != [] {
      NoDuplicateKeysSplit(b);
      if a[0] == b[0] && IsSubsequence(a[1..], b[1..]) {
        SubsequenceKeysDistinct(a[1..], b[1..]);
        SubsequenceMembers(a[1..], b[1..]);
        KeysOfMembers(a[1..]);
        KeysOfMembers(b[1..]);
        assert Key(a[0]) !in Keys(a[1..]);
        NoDuplicateKeysCons(a[0], a[1..]);
        assert [a[0]] + a[1..] == a;
      } else {
        SubsequenceKeysDistinct(a, b[1..]);
      }
    }
  }

  /** What `mergeAndDeduplicate` returns: the full history and then the range history,
      deduplicated on the key with the first occurrence kept, sorted newest first. */
  function Merged(fullHistory: seq<HistoryAlert>, rangeHistory: seq<HistoryAlert>): seq<HistoryAlert> {
    SortNewestFirst(Dedup(fullHistory + rangeHistory, {}))
  }

  /** The merged timeline is newest first and has no repeated key. */
  lemma MergedSortedAndDistinct(fullHistory: seq<HistoryAlert>, rangeHistory: seq<HistoryAlert>)
    ensures NewestFirst(Merged(fullHistory, rangeHistory))
    ensures NoDuplicateKeys(Merged(fullHistory, rangeHistory))
  {
    DedupProperties(fullHistory + rangeHistory, {});
    SortKeepsKeysDistinct(Dedup(fullHistory + rangeHistory, {}));
  }

  /** The merged timeline holds exactly the keys of both feeds, one record per key. */
  lemma MergedKeys(fullHistory: seq<HistoryAlert>, rangeHistory: seq<HistoryAlert>)
    ensures Keys(Merged(fullHistory, rangeHistory)) == Keys(fullHistory) + Keys(rangeHistory)
    ensures |Merged(fullHistory, rangeHistory)| <= |fullHistory| + |rangeHistory|
  {
    var all := fullHistory + rangeHistory;
    var d := Dedup(all, {});
    DedupProperties(all, {});
    var m := SortNewestFirst(d);
    SameMembersSameKeys(m, d);
    KeysAppend(fullHistory, rangeHistory);
    SubsequenceMembers(d, all);
    assert |m| == |multiset(m)| == |multiset(d)| == |d|;
  }

  /** Every merged record comes from one of the feeds and is the first record with its
      key in the full history followed by the range history. */
  lemma MergedRecords(fullHistory: seq<HistoryAlert>, rangeHistory: seq<HistoryAlert>)
    ensures forall a :: a in Merged(fullHistory, rangeHistory) ==> a in fullHistory || a in rangeHistory
    ensures forall a :: a in Merged(fullHistory, rangeHistory) ==> FirstWithKey(a, fullHistory + rangeHistory)
  {
    var all := fullHistory + rangeHistory;
    var d := Dedup(all, {});
    DedupProperties(all, {});
    SameMembersSameKeys(SortNewestFirst(d), d);
    SubsequenceMembers(d, all);
    DedupKeepsFirst(all, {});
  }

  /** Where both feeds hold a key, the merged record is the full history's. */
  lemma MergedPrefersFullHistory(fullHistory: seq<HistoryAlert>, rangeHistory: seq<HistoryAlert>)
    ensures forall a :: a in Merged(fullHistory, rangeHistory) && Key(a) in Keys(fullHistory) ==> a in fullHistory
  {
    var all := fullHistory + rangeHistory;
    MergedRecords(fullHistory, rangeHistory);
    KeysOfMembers(fullHistory);
    forall a | a in Merged(fullHistory, rangeHistory) && Key(a) in Keys(fullHistory) ensures a in fullHistory {
      var i :| 0 <= i < |all| && all[i] == a && forall j :: 0 <= j < i ==> Key(all[j]) != Key(a);
      var f :| f in fullHistory && Key(f) == Key(a);
      var k :| 0 <= k < |fullHistory| && fullHistory[k] == f;
      assert all[k] == f;
      assert i <= k;
      assert all[i] == fullHistory[i];
    }
  }

  /** Unfolds `Dedup` on a list that starts with `x`. */
  lemma DedupStep(x: HistoryAlert, rest: seq<HistoryAlert>, seen: set<DedupKey>)
    ensures Key(x) in seen ==> Dedup([x] + rest, seen) == Dedup(rest, seen)
    ensures Key(x) !in seen ==> Dedup([x] + rest, seen) == [x] + Dedup(rest, seen + {Key(x)})
  {
    assert ([x] + rest)[0] == x && ([x] + rest)[1..] == rest;
  }

  lemma KeysSnoc(s: seq<HistoryAlert>, x: HistoryAlert)
    ensures Keys(s + [x]) == Keys(s) + {Key(x)}
  {
    KeysAppend(s, [x]);
    KeysCons(x, []);
  }

  /** The collecting loop's invariant survives one record: skipped when its key was seen,
      appended and its key recorded otherwise. */
  lemma CollectStep(merged: seq<HistoryAlert>, seen: set<DedupKey>, x: HistoryAlert,
                    rest: seq<HistoryAlert>, target: seq<HistoryAlert>)
    requires seen == Keys(merged) && merged + Dedup([x] + rest, seen) == target
    ensures Key(x) in seen ==> merged + Dedup(rest, seen) == target
    ensures Key(x) !in seen ==>
      seen + {Key(x)} == Keys(merged + [x]) && (merged + [x]) + Dedup(rest, seen + {Key(x)}) == target
  {
    DedupStep(x, rest, seen);
    if Key(x) !in seen {
      KeysSnoc(merged, x);
      AppendAfterOne(merged, x, Dedup(rest, seen + {Key(x)}));
    }
  }

  lemma AppendAfterOne(a: seq<HistoryAlert>, x: HistoryAlert, d: seq<HistoryAlert>)
    ensures a + ([x] + d) == (a + [x]) + d
  {
  }

  /** `mergeAndDeduplicate`: collects the records of both feeds through a `seen` set of
      keys into a growing list, then sorts it newest first. */
  method MergeAndDeduplicate(fullHistory: seq<HistoryAlert>, rangeHistory: seq<HistoryAlert>)
    returns (merged: seq<HistoryAlert>)
    ensures merged == Merged(fullHistory, rangeHistory)
  {
    ghost var target := Dedup(fullHistory + rangeHistory, {});
    var seen: set<DedupKey> := {};
    merged := [];
    assert fullHistory[0..] + rangeHistory == fullHistory + rangeHistory;
    for i := 0 to |fullHistory|
      invariant seen == Keys(merged)
      invariant merged + Dedup(fullHistory[i..] + rangeHistory, seen) == target
    {
      var alert := fullHistory[i];
      assert fullHistory[i..] + rangeHistory == [alert] + (fullHistory[i + 1..] + rangeHistory);
      CollectStep(merged, seen, alert, fullHistory[i + 1..] + rangeHistory, target);
      var key := Key(alert);
      if key !in seen {
        seen := seen + {key};
        merged := merged + [alert];
      }
    }
    assert fullHistory[|fullHistory|..] + rangeHistory == rangeHistory[0..];
    for j := 0 to |rangeHistory|
      invariant seen == Keys(merged)
      invariant merged + Dedup(rangeHistory[j..], seen) == target
    {
      var alert := rangeHistory[j];
      assert rangeHistory[j..] == [alert] + rangeHistory[j + 1..];
      CollectStep(merged, seen, alert, rangeHistory[j + 1..], target);
      var key := Key(alert);
      if key !in seen {
        seen := seen + {key};
        merged := merged + [alert];
      }
    }
    assert rangeHistory[|rangeHistory|..] == [];
    assert merged + Dedup([], seen) == merged;
    merged := SortNewestFirst(merged);
  }
}

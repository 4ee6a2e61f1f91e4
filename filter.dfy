/**
  What happens to the scraped notices before any detail page is read: duplicates across
  search terms are dropped, only notices of the last seven days are kept, and of those only
  the ones not sent before are new. The seen store remembers when each notice was last
  listed, and entries older than thirty days are dropped when it is saved.
 */
module Filter {
  import opened Dates
  import opened Notices
  import opened Seqs

  // ---------------------------------------------------------------------------
  // Deduplication
  // ---------------------------------------------------------------------------

  /** No two notices share a deduplication key. */
  predicate DistinctKeys(ns: seq<Notice>)
  {
    forall i, j :: 0 <= i < j < |ns| ==> DedupKey(ns[i]) != DedupKey(ns[j])
  }

  /** The notices of `ns`, in order, whose key is neither in `keys` nor that of an earlier
      notice. */
  function DedupFrom(ns: seq<Notice>, keys: set<string>): (r: seq<Notice>)
    ensures Subseq(r, ns)
    ensures forall n :: n in r ==> DedupKey(n) !in keys
    ensures DistinctKeys(r)
    decreases |ns|
  {
    if ns == [] then []
    else if DedupKey(ns[0]) in keys then DedupFrom(ns[1..], keys)
    else [ns[0]] + DedupFrom(ns[1..], keys + {DedupKey(ns[0])})
  }

  /** `deduplicate`: the first notice of each key, in order. */
  function Dedup(ns: seq<Notice>): (r: seq<Notice>)
    ensures Subseq(r, ns) && DistinctKeys(r)
  {
    DedupFrom(ns, {})
  }

  /** The comprehension of `deduplicate`, threading its set of keys seen so far. */
  method Deduplicate(ns: seq<Notice>) returns (out: seq<Notice>)
    ensures out == Dedup(ns)
  {
    out := [];
    var seen: set<string> := {};
    var i := 0;
    while i < |ns|
      invariant 0 <= i <= |ns|
      invariant out + DedupFrom(ns[i..], seen) == Dedup(ns)
    {
      var k := DedupKey(ns[i]);
      assert ns[i..][1..] == ns[i + 1..];
      if k !in seen {
        assert out + DedupFrom(ns[i..], seen) == (out + [ns[i]]) + DedupFrom(ns[i + 1..], seen + {k});
        out := out + [ns[i]];
        seen := seen + {k};
      }
      i := i + 1;
    }
    assert ns[i..] == [];
  }

  /** The notice at `i` is the first of its key. */
  predicate FirstOfKey(ns: seq<Notice>, i: int)
    requires 0 <= i < |ns|
  {
    forall j :: 0 <= j < i ==> DedupKey(ns[j]) != DedupKey(ns[i])
  }

  lemma {:induction false} DedupFromKeepsFirsts(ns: seq<Notice>, keys: set<string>, i: int)
    requires 0 <= i < |ns| && FirstOfKey(ns, i) && DedupKey(ns[i]) !in keys
    ensures ns[i] in DedupFrom(ns, keys)
    decreases |ns|
  {
    if i > 0 {
      var keys' := if DedupKey(ns[0]) in keys then keys else keys + {DedupKey(ns[0])};
      assert FirstOfKey(ns[1..], i - 1) by {
        forall j | 0 <= j < i - 1
          ensures DedupKey(ns[1..][j]) != DedupKey(ns[1..][i - 1])
        {
          assert ns[1..][j] == ns[j + 1];
        }
      }
      assert DedupKey(ns[0]) != DedupKey(ns[i]);
      DedupFromKeepsFirsts(ns[1..], keys', i - 1);
    }
  }

  /** The keys taken once `n` has been passed. */
  function Taken(n: Notice, keys: set<string>): set<string>
  {
    if DedupKey(n) in keys then keys else keys + {DedupKey(n)}
  }

  /** `n` is kept by deduplicating `ns` when `keys` are already taken: either it is the
      head and its key is free, or it is kept from the tail once the head's key is taken. */
  predicate KeptAt(ns: seq<Notice>, keys: set<string>, n: Notice)
    decreases |ns|
  {
    ns != [] &&
    ((DedupKey(ns[0]) !in keys && n == ns[0]) || KeptAt(ns[1..], Taken(ns[0], keys), n))
  }

  lemma {:induction false} DedupFromOnlyFirsts(ns: seq<Notice>, keys: set<string>, n: Notice)
    returns (i: int)
    requires n in DedupFrom(ns, keys)
    ensures 0 <= i < |ns| && ns[i] == n && FirstOfKey(ns, i) && DedupKey(n) !in keys
  {
    DedupFromKept(ns, keys, n);
    i := KeptAtFirst(ns, keys, n);
  }

  lemma {:induction false} DedupFromKept(ns: seq<Notice>, keys: set<string>, n: Notice)
    requires n in DedupFrom(ns, keys)
    ensures KeptAt(ns, keys, n)
    decreases |ns|
  {
    if !(DedupKey(ns[0]) !in keys && n == ns[0]) {
      DedupFromTail(ns, keys, n);
      DedupFromKept(ns[1..], Taken(ns[0], keys), n);
    }
  }

  /** A kept notice other than a kept head is kept from the tail, once the head's key is
      taken. */
  lemma DedupFromTail(ns: seq<Notice>, keys: set<string>, n: Notice)
    requires ns != [] && n in DedupFrom(ns, keys)
    requires !(DedupKey(ns[0]) !in keys && n == ns[0])
    ensures n in DedupFrom(ns[1..], Taken(ns[0], keys))
  {
  }

  /** A notice kept this way sits at a first occurrence of its key, and its key is free. */
  lemma {:induction false} KeptAtFirst(ns: seq<Notice>, keys: set<string>, n: Notice) returns (i: int)
    requires KeptAt(ns, keys, n)
    ensures 0 <= i < |ns| && ns[i] == n && FirstOfKey(ns, i) && DedupKey(n) !in keys
    decreases |ns|
  {
    if DedupKey(ns[0]) !in keys && n == ns[0] {
      i := 0;
    } else {
      var i' := KeptAtFirst(ns[1..], Taken(ns[0], keys), n);
      assert ns[1..][i'] == ns[i' + 1];
      FirstOfKeyCons(ns, i');
      i := i' + 1;
    }
  }

  /** A first occurrence in the tail, whose key differs from the head's, is a first
      occurrence in the whole sequence. */
  lemma FirstOfKeyCons(ns: seq<Notice>, i: int)
    requires 0 <= i < |ns| - 1 && FirstOfKey(ns[1..], i) && DedupKey(ns[0]) != DedupKey(ns[i + 1])
    ensures FirstOfKey(ns, i + 1)
  {
    forall j | 0 < j < i + 1
      ensures DedupKey(ns[j]) != DedupKey(ns[i + 1])
    {
      assert ns[j] == ns[1..][j - 1] && ns[i + 1] == ns[1..][i];
    }
  }

  /** Every key of the input is either excluded up front or kept by some output notice. */
  lemma {:induction false} DedupFromCoversKeys(ns: seq<Notice>, keys: set<string>, n: Notice)
    requires n in ns
    ensures DedupKey(n) in keys || exists m :: m in DedupFrom(ns, keys) && DedupKey(m) == DedupKey(n)
    decreases |ns|
  {
    if n != ns[0] && DedupKey(n) != DedupKey(ns[0]) {
      var keys' := if DedupKey(ns[0]) in keys then keys else keys + {DedupKey(ns[0])};
      DedupFromCoversKeys(ns[1..], keys', n);
    } else if DedupKey(ns[0]) !in keys {
      assert ns[0] in DedupFrom(ns, keys);
    }
  }

  /** `deduplicate` keeps exactly the first notice of each key: the result is a
      subsequence of the input, its keys are pairwise distinct, every key of the input is
      kept, and a notice is kept iff it is at the first position of its key. `DedupSnoc`
      fixes their order. */
  lemma DedupFirstWins(ns: seq<Notice>)
    ensures Subseq(Dedup(ns), ns) && DistinctKeys(Dedup(ns))
    ensures forall n :: n in ns ==> exists m :: m in Dedup(ns) && DedupKey(m) == DedupKey(n)
    ensures forall i :: 0 <= i < |ns| && FirstOfKey(ns, i) ==> ns[i] in Dedup(ns)
    ensures forall n :: n in Dedup(ns) ==> exists i :: 0 <= i < |ns| && ns[i] == n && FirstOfKey(ns, i)
  {
    forall n | n in ns
      ensures exists m :: m in Dedup(ns) && DedupKey(m) == DedupKey(n)
    {
      DedupFromCoversKeys(ns, {}, n);
    }
    forall i | 0 <= i < |ns| && FirstOfKey(ns, i)
      ensures ns[i] in Dedup(ns)
    {
      DedupFromKeepsFirsts(ns, {}, i);
    }
    forall n | n in Dedup(ns)
      ensures exists i :: 0 <= i < |ns| && ns[i] == n && FirstOfKey(ns, i)
    {
      var i := DedupFromOnlyFirsts(ns, {}, n);
    }
  }

  /** The deduplication keys of the notices in `ns`. */
  function DedupKeysOf(ns: seq<Notice>): set<string>
  {
    set n | n in ns :: DedupKey(n)
  }

  /** A key belongs to `DedupKeysOf(ns)` exactly when some position of `ns` carries it. */
  lemma DedupKeysOfIndex(ns: seq<Notice>, k: string)
    ensures k in DedupKeysOf(ns) <==> exists j :: 0 <= j < |ns| && DedupKey(ns[j]) == k
  {
    if k in DedupKeysOf(ns) {
      var n :| n in ns && DedupKey(n) == k;
      var j :| 0 <= j < |ns| && ns[j] == n;
    }
    forall j | 0 <= j < |ns| && DedupKey(ns[j]) == k
      ensures k in DedupKeysOf(ns)
    {
      assert ns[j] in ns;
    }
  }

  /** Deduplicating with one more notice at the end extends the old result by that notice
      exactly when its key is neither excluded nor that of an earlier notice. */
  lemma {:induction false} DedupFromSnoc(ns: seq<Notice>, keys: set<string>, x: Notice)
    ensures DedupFrom(ns + [x], keys)
            == DedupFrom(ns, keys) + (if DedupKey(x) in keys + DedupKeysOf(ns) then [] else [x])
    decreases |ns|
  {
    if ns == [] {
      assert DedupKeysOf(ns) == {};
      assert [x][1..] == [];
    } else {
      var keys' := Taken(ns[0], keys);
      DedupFromSnoc(ns[1..], keys', x);
      DedupKeysOfCons(ns, keys, DedupKey(x));
      DedupFromSnocStep(ns, keys, x);
    }
  }

  /** Passing the head moves its key from the notices to the taken keys. */
  lemma DedupKeysOfCons(ns: seq<Notice>, keys: set<string>, k: string)
    requires ns != []
    ensures k in keys + DedupKeysOf(ns) <==> k in Taken(ns[0], keys) + DedupKeysOf(ns[1..])
  {
    assert ns == [ns[0]] + ns[1..];
  }

  /** One unfolding of `DedupFrom` on an input with a notice appended. */
  lemma DedupFromSnocStep(ns: seq<Notice>, keys: set<string>, x: Notice)
    requires ns != []
    ensures DedupFrom(ns + [x], keys)
            == (if DedupKey(ns[0]) in keys then [] else [ns[0]])
               + DedupFrom(ns[1..] + [x], Taken(ns[0], keys))
  {
    assert (ns + [x])[0] == ns[0];
    assert (ns + [x])[1..] == ns[1..] + [x];
  }

  /** `deduplicate` read one notice at a time: a notice is appended to the result exactly
      when no earlier notice has its key. This fixes the result outright, so the kept
      notices appear in the order in which their keys first occur. */
  lemma DedupSnoc(ns: seq<Notice>, x: Notice)
    ensures Dedup(ns + [x])
            == Dedup(ns) + (if exists j :: 0 <= j < |ns| && DedupKey(ns[j]) == DedupKey(x) then [] else [x])
  {
    DedupFromSnoc(ns, {}, x);
    DedupKeysOfIndex(ns, DedupKey(x));
    assert {} + DedupKeysOf(ns) == DedupKeysOf(ns);
  }

  /** Input that already has distinct keys, none of them excluded, passes unchanged. */
  lemma {:induction false} DedupFromDistinct(ns: seq<Notice>, keys: set<string>)
    requires DistinctKeys(ns)
    requires forall n :: n in ns ==> DedupKey(n) !in keys
    ensures DedupFrom(ns, keys) == ns
    decreases |ns|
  {
    if ns != [] {
      var keys' := keys + {DedupKey(ns[0])};
      forall n | n in ns[1..]
        ensures DedupKey(n) !in keys'
      {
        var j :| 0 <= j < |ns[1..]| && ns[1..][j] == n;
        assert ns[j + 1] == n;
      }
      assert DistinctKeys(ns[1..]) by {
        forall i, j | 0 <= i < j < |ns[1..]|
          ensures DedupKey(ns[1..][i]) != DedupKey(ns[1..][j])
        {
          assert ns[1..][i] == ns[i + 1] && ns[1..][j] == ns[j + 1];
        }
      }
      DedupFromDistinct(ns[1..], keys');
    }
  }

  /** Deduplicating twice is deduplicating once. */
  lemma DedupIdempotent(ns: seq<Notice>)
    ensures Dedup(Dedup(ns)) == Dedup(ns)
  {
    DedupFromDistinct(Dedup(ns), {});
  }

  /** A subsequence of notices with distinct keys has distinct keys. */
  lemma {:induction false} SubseqKeepsDistinct(a: seq<Notice>, b: seq<Notice>)
    requires Subseq(a, b) && DistinctKeys(b)
    ensures DistinctKeys(a)
    decreases |b|
  {
    if b != [] {
      assert DistinctKeys(b[1..]) by {
        forall i, j | 0 <= i < j < |b[1..]|
          ensures DedupKey(b[1..][i]) != DedupKey(b[1..][j])
        {
          assert b[1..][i] == b[i + 1] && b[1..][j] == b[j + 1];
        }
      }
      if a != [] && a[0] == b[0] && Subseq(a[1..], b[1..]) {
        SubseqKeepsDistinct(a[1..], b[1..]);
        SubseqMembers(a[1..], b[1..]);
        forall i, j | 0 <= i < j < |a|
          ensures DedupKey(a[i]) != DedupKey(a[j])
        {
          if i == 0 {
            assert a[j] == a[1..][j - 1];
            assert a[j] in a[1..];
            var k :| 0 <= k < |b[1..]| && b[1..][k] == a[j];
            assert b[k + 1] == a[j];
          } else {
            assert a[i] == a[1..][i - 1] && a[j] == a[1..][j - 1];
          }
        }
      } else {
        SubseqKeepsDistinct(a, b[1..]);
      }
    }
  }


  // ---------------------------------------------------------------------------
  // Recency and novelty
  // ---------------------------------------------------------------------------

  /** Notices are kept for seven days; the seen store keeps entries for thirty. */
  const RecentDays := 7
  const SeenMaxAgeDays := 30

  /** A clock reading from which both cut-offs can be computed (later than 31 January of
      year 1; the source raises an overflow error otherwise). */
  predicate NowInRange(now: DateTime)
  {
    ValidDateTime(now) && DayNumber(now.date) > SeenMaxAgeDays
  }

  /** Midnight seven days before today, as a date. */
  function RecencyCutoff(now: DateTime): (c: Date)
    requires NowInRange(now)
    ensures ValidDate(c) && DayNumber(c) == DayNumber(now.date) - RecentDays
  {
    MinusDays(now.date, RecentDays)
  }

  /** `is_recent`: published on or after the cut-off day. */
  predicate IsRecent(n: Notice, now: DateTime)
    requires NowInRange(now)
  {
    DateLe(RecencyCutoff(now), n.date)
  }

  /** A notice is recent exactly when it was published at most seven days before today. */
  lemma IsRecentWithinWeek(n: Notice, now: DateTime)
    requires NowInRange(now) && ValidDate(n.date)
    ensures IsRecent(n, now) <==> DayNumber(now.date) - DayNumber(n.date) <= RecentDays
  {
    DayNumberOrder(RecencyCutoff(now), n.date);
  }

  /** The test of the `recent` comprehension for one clock reading. */
  function RecentTest(now: DateTime): Notice -> bool
  {
    n => NowInRange(now) && IsRecent(n, now)
  }

  /** `recent`: the recent notices, in order, each as often as it is listed. */
  function Recent(ns: seq<Notice>, now: DateTime): (r: seq<Notice>)
    requires NowInRange(now)
    ensures Subseq(r, ns)
    ensures forall n :: n in r <==> n in ns && IsRecent(n, now)
    ensures forall n :: multiset(r)[n] == if IsRecent(n, now) then multiset(ns)[n] else 0
  {
    Keep(RecentTest(now), ns)
  }

  /** The test of the `new_notices` comprehension for one seen store. */
  function UnseenTest(seen: map<string, DateTime>): Notice -> bool
  {
    n => NoticeKey(n) !in seen
  }

  /** `new_notices`: the notices whose remembered key is not in the seen store, in order,
      each as often as it occurs. */
  function Unseen(ns: seq<Notice>, seen: map<string, DateTime>): (r: seq<Notice>)
    ensures Subseq(r, ns)
    ensures forall n :: n in r <==> n in ns && NoticeKey(n) !in seen
    ensures forall n :: multiset(r)[n] == if NoticeKey(n) !in seen then multiset(ns)[n] else 0
  {
    Keep(UnseenTest(seen), ns)
  }

  /** The filter chain of a run: new notices are a subsequence of the recent ones, which
      are a subsequence of the deduplicated ones, which are a subsequence of everything
      listed; a notice is new exactly when it survived deduplication, is recent and its key
      has not been seen. */
  lemma FilterChain(all: seq<Notice>, now: DateTime, seen: map<string, DateTime>)
    requires NowInRange(now)
    ensures var unique := Dedup(all); var recent := Recent(unique, now);
      var newOnes := Unseen(recent, seen);
      && Subseq(newOnes, recent) && Subseq(recent, unique) && Subseq(unique, all)
      && Subseq(newOnes, all)
      && forall n :: n in newOnes <==> n in unique && IsRecent(n, now) && NoticeKey(n) !in seen
  {
    var unique := Dedup(all);
    var recent := Recent(unique, now);
    DedupFirstWins(all);
    SubseqTrans(Unseen(recent, seen), recent, unique);
    SubseqTrans(Unseen(recent, seen), unique, all);
  }

  // ---------------------------------------------------------------------------
  // The seen store
  // ---------------------------------------------------------------------------

  /** The remembered keys of some notices. */
  function KeysOf(ns: seq<Notice>): set<string>
  {
    set n | n in ns :: NoticeKey(n)
  }

  /** The store after the recent notices' keys are stamped with `ts`. */
  function Refreshed(seen: map<string, DateTime>, ns: seq<Notice>, ts: DateTime): map<string, DateTime>
  {
    seen + map k | k in KeysOf(ns) :: ts
  }

  /** After the refresh every recent notice's key maps to `ts`, every other entry is as it
      was, and no other key appears. */
  lemma RefreshedEntries(seen: map<string, DateTime>, ns: seq<Notice>, ts: DateTime)
    ensures var m := Refreshed(seen, ns, ts);
      && (forall n :: n in ns ==> NoticeKey(n) in m && m[NoticeKey(n)] == ts)
      && (forall k :: k in seen && k !in KeysOf(ns) ==> k in m && m[k] == seen[k])
      && (forall k :: k in m ==> k in seen || k in KeysOf(ns))
  {
  }

  /** The persisted store of keys already reported, with the time each was last listed. */
  class SeenStore {
    var entries: map<string, DateTime>

    constructor(loaded: map<string, DateTime>)
      ensures entries == loaded
    {
      entries := loaded;
    }

    /** `for n in recent: seen[notice_key(n)] = ts_now`. */
    method Refresh(recent: seq<Notice>, ts: DateTime)
      modifies this
      ensures entries == Refreshed(old(entries), recent, ts)
    {
      var i := 0;
      while i < |recent|
        invariant 0 <= i <= |recent|
        invariant entries == Refreshed(old(entries), recent[..i], ts)
      {
        RefreshedStep(old(entries), recent, i, ts);
        entries := entries[NoticeKey(recent[i]) := ts];
        i := i + 1;
      }
      assert recent[..i] == recent;
    }
  }

  lemma RefreshedStep(seen: map<string, DateTime>, ns: seq<Notice>, i: int, ts: DateTime)
    requires 0 <= i < |ns|
    ensures Refreshed(seen, ns[..i + 1], ts) == Refreshed(seen, ns[..i], ts)[NoticeKey(ns[i]) := ts]
  {
    assert ns[..i + 1] == ns[..i] + [ns[i]];
    assert KeysOf(ns[..i + 1]) == KeysOf(ns[..i]) + {NoticeKey(ns[i])};
  }

  /** Once refreshed with the recent notices, none of them is new any more. */
  lemma NothingNewAfterRefresh(seen: map<string, DateTime>, recent: seq<Notice>, ts: DateTime)
    ensures Unseen(recent, Refreshed(seen, recent, ts)) == []
  {
    UnseenAllKnown(recent, Refreshed(seen, recent, ts));
  }

  lemma UnseenAllKnown(ns: seq<Notice>, seen: map<string, DateTime>)
    requires forall n :: n in ns ==> NoticeKey(n) in seen
    ensures Unseen(ns, seen) == []
  {
  }

  // ---------------------------------------------------------------------------
  // Pruning on save
  // ---------------------------------------------------------------------------

  /** The instant thirty days before now. */
  function SeenCutoff(now: DateTime): (c: DateTime)
    requires NowInRange(now)
    ensures ValidDateTime(c) && DateTimeLe(c, now)
    ensures c.micros == now.micros && DayNumber(c.date) == DayNumber(now.date) - SeenMaxAgeDays
  {
    MinusDaysAtNotLater(now, SeenMaxAgeDays);
    MinusDaysAt(now, SeenMaxAgeDays)
  }

  /** The entries `save_seen` writes: those stamped at or after the cut-off. */
  function Pruned(seen: map<string, DateTime>, cutoff: DateTime): map<string, DateTime>
  {
    map k | k in seen && DateTimeLe(cutoff, seen[k]) :: seen[k]
  }

  /** The keys pruning drops. */
  function Dropped(seen: map<string, DateTime>, cutoff: DateTime): set<string>
  {
    set k | k in seen && !DateTimeLe(cutoff, seen[k])
  }

  /** Pruning never adds or alters an entry, keeps exactly those at or after the cut-off,
      and the reported count `len(seen) - len(pruned)` is the number of entries dropped. */
  lemma PrunedKeepsRecentEntries(seen: map<string, DateTime>, cutoff: DateTime)
    ensures var p := Pruned(seen, cutoff);
      && (forall k :: k in p <==> k in seen && DateTimeLe(cutoff, seen[k]))
      && (forall k :: k in p ==> p[k] == seen[k])
      && |seen| - |p| == |Dropped(seen, cutoff)|
  {
    var p := Pruned(seen, cutoff);
    assert seen.Keys == p.Keys + Dropped(seen, cutoff);
    assert p.Keys * Dropped(seen, cutoff) == {};
    assert |seen.Keys| == |p.Keys| + |Dropped(seen, cutoff)|;
  }

  /** Pruning twice is pruning once. */
  lemma PrunedIdempotent(seen: map<string, DateTime>, cutoff: DateTime)
    ensures Pruned(Pruned(seen, cutoff), cutoff) == Pruned(seen, cutoff)
  {
  }

  /** The entries just stamped with the current time survive the save's pruning. */
  lemma RefreshedSurvivesSave(seen: map<string, DateTime>, recent: seq<Notice>, now: DateTime)
    requires NowInRange(now)
    ensures var p := Pruned(Refreshed(seen, recent, now), SeenCutoff(now));
      forall n :: n in recent ==> NoticeKey(n) in p && p[NoticeKey(n)] == now
  {
    RefreshedEntries(seen, recent, now);
  }
}

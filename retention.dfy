/** Count-based retention, shared by the local and the remote cleanup: the
    matching artifacts, each with the window parsed from its name, are sorted
    by window ascending and the oldest `len - retention` are evicted. */
module Retention {
  import opened Common

  /** One matching artifact: the parsed window and the name (a local path or a
      remote key) it was parsed from. */
  datatype Candidate<N> = Candidate(window: nat, name: N)

  function WindowKey<N>(c: Candidate<N>): int { c.window }

  /** `gradient_files.sort(key=lambda x: x[0])` */
  function SortByWindow<N>(cs: seq<Candidate<N>>): (r: seq<Candidate<N>>)
    ensures multiset(r) == multiset(cs) && |r| == |cs|
    ensures forall i, j :: 0 <= i < j < |r| ==> r[i].window <= r[j].window
  {
    var r := SortBy(cs, WindowKey);
    assert forall i, j :: 0 <= i < j < |r| ==> WindowKey(r[i]) <= WindowKey(r[j]);
    r
  }

  /** How many to delete: `len - retention` when `len > retention`, and since
      `files[:len - retention]` is the whole list when retention is negative,
      never more than `len`. */
  function StaleCount(n: nat, retention: int): (k: nat)
    ensures k <= n
    ensures n <= retention ==> k == 0
    ensures n > retention ==> n - k == (if retention >= 0 then retention else 0)
  {
    if n > retention then (if retention >= 0 then n - retention else n) else 0
  }

  /** The candidates a cleanup deletes. */
  function Evicted<N>(cs: seq<Candidate<N>>, retention: int): seq<Candidate<N>> {
    var s := SortByWindow(cs);
    s[..StaleCount(|s|, retention)]
  }

  /** The candidates a cleanup leaves in place. */
  function Kept<N>(cs: seq<Candidate<N>>, retention: int): seq<Candidate<N>> {
    var s := SortByWindow(cs);
    s[StaleCount(|s|, retention)..]
  }

  function Names<N>(cs: seq<Candidate<N>>): set<N> {
    set c | c in cs :: c.name
  }

  /** Evicted and kept candidates together are exactly the candidates. */
  lemma EvictedAndKeptPartition<N>(cs: seq<Candidate<N>>, retention: int)
    ensures multiset(Evicted(cs, retention)) + multiset(Kept(cs, retention)) == multiset(cs)
  {
    var s := SortByWindow(cs);
    var k := StaleCount(|s|, retention);
    assert s == s[..k] + s[k..];
  }

  /** At most `retention` candidates survive, and all of them when they
      already number no more than that. */
  lemma KeptCount<N>(cs: seq<Candidate<N>>, retention: int)
    ensures |Kept(cs, retention)| == if retention < 0 then 0 else Min(|cs|, retention)
    ensures |Evicted(cs, retention)| + |Kept(cs, retention)| == |cs|
  {
  }

  /** Only the oldest go: every evicted window is no later than every kept one. */
  lemma EvictsOldest<N>(cs: seq<Candidate<N>>, retention: int)
    ensures forall e, k :: e in Evicted(cs, retention) && k in Kept(cs, retention) ==> e.window <= k.window
  {
    var s := SortByWindow(cs);
    var n := StaleCount(|s|, retention);
    forall e, k | e in s[..n] && k in s[n..] ensures e.window <= k.window {
      var i :| 0 <= i < n && s[i] == e;
      var j :| n <= j < |s| && s[j] == k;
    }
  }

  /** With no more candidates than `retention`, nothing is deleted. */
  lemma NothingEvictedWithinRetention<N>(cs: seq<Candidate<N>>, retention: int)
    requires |cs| <= retention
    ensures Evicted(cs, retention) == []
    ensures multiset(Kept(cs, retention)) == multiset(cs)
  {
  }

  /** Cleanup is idempotent: cleaning what a cleanup kept keeps all of it and
      evicts nothing more. */
  lemma {:induction false} CleanupIdempotent<N>(cs: seq<Candidate<N>>, retention: int)
    ensures Evicted(Kept(cs, retention), retention) == []
    ensures Kept(Kept(cs, retention), retention) == Kept(cs, retention)
  {
    var s := SortByWindow(cs);
    var kept := s[StaleCount(|s|, retention)..];
    assert SortedBy(kept, WindowKey) by {
      forall i, j | 0 <= i < j < |kept| ensures WindowKey(kept[i]) <= WindowKey(kept[j]) {
        assert kept[i] == s[StaleCount(|s|, retention) + i];
        assert kept[j] == s[StaleCount(|s|, retention) + j];
      }
    }
    SortBySorted(kept, WindowKey);
    assert SortByWindow(kept) == kept;
    assert StaleCount(|kept|, retention) == 0;
  }

  /** Kept windows are the largest ones: a candidate whose window exceeds some
      surviving candidate's window survives too. */
  lemma KeptAreLatest<N>(cs: seq<Candidate<N>>, retention: int, k: Candidate<N>, c: Candidate<N>)
    requires k in Kept(cs, retention) && c in cs && c.window > k.window
    ensures c in Kept(cs, retention)
  {
    EvictedAndKeptPartition(cs, retention);
    EvictsOldest(cs, retention);
    assert c in multiset(cs);
  }

  /** A later listing that holds only candidates the cleanup kept, each once,
      evicts nothing: that is why running the cleanup twice deletes nothing
      the first run left. */
  lemma RelistingEvictsNothing<N>(first: seq<Candidate<N>>, second: seq<Candidate<N>>, retention: int)
    requires forall i, j :: 0 <= i < j < |second| ==> second[i].name != second[j].name
    requires forall c :: c in second ==> c in first && c.name !in Names(Evicted(first, retention))
    ensures Evicted(second, retention) == []
  {
    var kept := Kept(first, retention);
    EvictedAndKeptPartition(first, retention);
    KeptCount(first, retention);
    forall c | c in second ensures c in kept {
      assert c in multiset(first);
    }
    DistinctCardinality(second);
    SubsetCardinality(set c | c in second, set c | c in kept);
    CardinalityOfSeqSet(kept);
  }

  /** Among candidates with distinct names, a candidate's name escapes the
      deletion exactly when the candidate is kept. */
  lemma SurvivorsAreKept<N>(cs: seq<Candidate<N>>, retention: int, c: Candidate<N>)
    requires forall i, j :: 0 <= i < j < |cs| ==> cs[i].name != cs[j].name
    requires c in cs
    ensures c.name !in Names(Evicted(cs, retention)) <==> c in Kept(cs, retention)
  {
    EvictedAndKeptPartition(cs, retention);
    assert c in multiset(cs);
    if c.name in Names(Evicted(cs, retention)) {
      var e :| e in Evicted(cs, retention) && e.name == c.name;
      assert e in multiset(cs);
      SameNameSameCandidate(cs, e, c);
      DistinctOnce(cs, c);
      assert c in multiset(Evicted(cs, retention));
    }
  }

  /** Deleted candidates come from the listing. */
  lemma EvictedFromListing<N>(cs: seq<Candidate<N>>, retention: int, e: Candidate<N>)
    requires e in Evicted(cs, retention)
    ensures e in cs
  {
    EvictedAndKeptPartition(cs, retention);
    assert multiset(Evicted(cs, retention))[e] > 0;
    assert multiset(cs)[e] > 0;
  }

  lemma SameNameSameCandidate<N>(cs: seq<Candidate<N>>, a: Candidate<N>, b: Candidate<N>)
    requires forall i, j :: 0 <= i < j < |cs| ==> cs[i].name != cs[j].name
    requires a in cs && b in cs && a.name == b.name
    ensures a == b
  {
    var i :| 0 <= i < |cs| && cs[i] == a;
    var j :| 0 <= j < |cs| && cs[j] == b;
    assert !(i < j) && !(j < i);
  }

  lemma {:induction false} DistinctOnce<N>(cs: seq<Candidate<N>>, c: Candidate<N>)
    requires forall i, j :: 0 <= i < j < |cs| ==> cs[i].name != cs[j].name
    ensures multiset(cs)[c] <= 1
  {
    if cs != [] {
      var t := cs[1..];
      assert cs == [cs[0]] + t;
      assert forall i, j :: 0 <= i < j < |t| ==> t[i].name != t[j].name by {
        forall i, j | 0 <= i < j < |t| ensures t[i].name != t[j].name {
          assert t[i] == cs[i + 1] && t[j] == cs[j + 1];
        }
      }
      DistinctOnce(t, c);
      if cs[0] == c {
        assert c !in t by {
          forall k | 0 <= k < |t| ensures t[k] != c {
            assert t[k] == cs[k + 1];
          }
        }
      }
    }
  }

  lemma {:induction false} DistinctCardinality<N>(s: seq<Candidate<N>>)
    requires forall i, j :: 0 <= i < j < |s| ==> s[i].name != s[j].name
    ensures |set c | c in s| == |s|
  {
    if s != [] {
      var t := s[1..];
      DistinctCardinality(t);
      assert (set c | c in s) == (set c | c in t) + {s[0]};
      assert s[0] !in t by {
        forall k | 0 <= k < |t| ensures t[k] != s[0] {
          assert t[k] == s[k + 1];
        }
      }
    }
  }

  lemma {:induction false} CardinalityOfSeqSet<N>(s: seq<Candidate<N>>)
    ensures |set c | c in s| <= |s|
  {
    if s != [] {
      CardinalityOfSeqSet(s[1..]);
      assert (set c | c in s) == (set c | c in s[1..]) + {s[0]};
    }
  }

  lemma {:induction false} SubsetCardinality<T>(a: set<T>, b: set<T>)
    requires a <= b
    ensures |a| <= |b|
  {
    if a != {} {
      var x :| x in a;
      SubsetCardinality(a - {x}, b - {x});
    }
  }
}

/** Shared vocabulary: optional values, the opaque payload types the three
    layers pass around, the list utilities they all lean on (a stable sort
    by an integer key, the sorted set of a list, the maximum of a list), the
    window a block falls in and the checkpoint cadence. */
module Common {

  datatype Option<+T> = None | Some(value: T)

  /** An opaque tensor. Its numeric contents never matter to the bookkeeping. */
  datatype Tensor = Tensor(data: seq<int>)

  /** A state-dict entry: either a list/tuple of tensors or a single tensor. */
  datatype Value = Items(items: seq<Tensor>) | Single(tensor: Tensor)

  /** A state dict as it is saved, fetched and gathered: field name to entry. */
  type StateDict = map<string, Value>

  function Min(a: int, b: int): int { if a <= b then a else b }

  function Max(a: int, b: int): int { if a >= b then a else b }

  // ---------------------------------------------------------------------------
  // Stable sort by an integer key (Python's list.sort(key=...) / sorted(...))

  ghost predicate SortedBy<T>(s: seq<T>, key: T -> int) {
    forall i, j :: 0 <= i < j < |s| ==> key(s[i]) <= key(s[j])
  }

  /** Inserts x in front of the first element whose key is not smaller, so
      that elements with equal keys keep their original order. */
  function InsertBy<T>(x: T, s: seq<T>, key: T -> int): seq<T> {
    if s == [] then [x]
    else if key(x) <= key(s[0]) then [x] + s
    else [s[0]] + InsertBy(x, s[1..], key)
  }

  /** Insertion adds exactly x. */
  lemma {:induction false} InsertByCount<T>(x: T, s: seq<T>, key: T -> int)
    ensures multiset(InsertBy(x, s, key)) == multiset(s) + multiset{x}
    ensures |InsertBy(x, s, key)| == |s| + 1
  {
    if s != [] && key(x) > key(s[0]) {
      InsertByCount(x, s[1..], key);
      assert s == [s[0]] + s[1..];
    }
  }

  /** A bound below every key of s and below x's key stays below every key
      after the insertion. */
  lemma {:induction false} InsertByBound<T>(x: T, s: seq<T>, key: T -> int, b: int)
    requires b <= key(x) && forall k :: 0 <= k < |s| ==> b <= key(s[k])
    ensures forall k :: 0 <= k < |InsertBy(x, s, key)| ==> b <= key(InsertBy(x, s, key)[k])
  {
    if s != [] && key(x) > key(s[0]) {
      var tail := s[1..];
      assert forall k :: 0 <= k < |tail| ==> tail[k] == s[k + 1];
      InsertByBound(x, tail, key, b);
    }
  }

  lemma TailSorted<T>(s: seq<T>, key: T -> int)
    requires s != [] && SortedBy(s, key)
    ensures SortedBy(s[1..], key)
    ensures forall k :: 0 <= k < |s[1..]| ==> key(s[0]) <= key(s[1..][k])
  {
    var tail := s[1..];
    forall i, j | 0 <= i < j < |tail| ensures key(tail[i]) <= key(tail[j]) {
      assert tail[i] == s[i + 1] && tail[j] == s[j + 1];
    }
    forall k | 0 <= k < |tail| ensures key(s[0]) <= key(tail[k]) {
      assert tail[k] == s[k + 1];
    }
  }

  lemma ConsSorted<T>(a: T, rest: seq<T>, key: T -> int)
    requires SortedBy(rest, key) && forall k :: 0 <= k < |rest| ==> key(a) <= key(rest[k])
    ensures SortedBy([a] + rest, key)
  {
    var r := [a] + rest;
    forall i, j | 0 <= i < j < |r| ensures key(r[i]) <= key(r[j]) {
      assert r[j] == rest[j - 1];
      if i > 0 {
        assert r[i] == rest[i - 1];
      }
    }
  }

  /** Insertion into a sorted list keeps it sorted. */
  lemma {:induction false} InsertBySorted<T>(x: T, s: seq<T>, key: T -> int)
    requires SortedBy(s, key)
    ensures SortedBy(InsertBy(x, s, key), key)
  {
    if s == [] {
    } else if key(x) <= key(s[0]) {
      assert forall k :: 0 <= k < |s| ==> key(x) <= key(s[k]);
      ConsSorted(x, s, key);
    } else {
      TailSorted(s, key);
      InsertBySorted(x, s[1..], key);
      InsertByBound(x, s[1..], key, key(s[0]));
      ConsSorted(s[0], InsertBy(x, s[1..], key), key);
    }
  }

  function SortBy<T>(s: seq<T>, key: T -> int): (r: seq<T>)
    ensures SortedBy(r, key)
    ensures multiset(r) == multiset(s)
    ensures |r| == |s|
  {
    if s == [] then []
    else
      assert s == [s[0]] + s[1..];
      var sorted := SortBy(s[1..], key);
      InsertBySorted(s[0], sorted, key);
      InsertByCount(s[0], sorted, key);
      InsertBy(s[0], sorted, key)
  }

  /** Sorting an already sorted list leaves it as it is. */
  lemma {:induction false} SortBySorted<T>(s: seq<T>, key: T -> int)
    requires SortedBy(s, key)
    ensures SortBy(s, key) == s
  {
    if s != [] {
      assert SortedBy(s[1..], key);
      SortBySorted(s[1..], key);
      assert [s[0]] + s[1..] == s;
    }
  }

  function Id(x: int): int { x }

  // ---------------------------------------------------------------------------
  // sorted(set(xs)): the distinct elements of a list in increasing order

  ghost predicate StrictlyIncreasing(s: seq<int>) {
    forall i, j :: 0 <= i < j < |s| ==> s[i] < s[j]
  }

  function InsertUnique(x: int, s: seq<int>): (r: seq<int>)
    requires StrictlyIncreasing(s)
    ensures StrictlyIncreasing(r)
    ensures forall y :: y in r <==> y in s || y == x
  {
    if s == [] then [x]
    else if x < s[0] then [x] + s
    else if x == s[0] then s
    else
      var rest := InsertUnique(x, s[1..]);
      assert forall k :: 0 <= k < |rest| ==> s[0] < rest[k] by {
        forall k | 0 <= k < |rest| ensures s[0] < rest[k] {
          assert rest[k] in rest;
        }
      }
      [s[0]] + rest
  }

  function SortedDistinct(s: seq<int>): (r: seq<int>)
    ensures StrictlyIncreasing(r)
    ensures forall y :: y in r <==> y in s
  {
    if s == [] then []
    else
      var rest := SortedDistinct(s[1..]);
      var r := InsertUnique(s[0], rest);
      assert forall y :: y in r <==> y == s[0] || y in rest;
      r
  }

  // ---------------------------------------------------------------------------
  // max(xs) of a non-empty list of integers

  function MaxOf(s: seq<int>): (m: int)
    requires |s| > 0
    ensures m in s
    ensures forall x :: x in s ==> x <= m
  {
    if |s| == 1 then s[0]
    else
      var m := MaxOf(s[1..]);
      assert forall x :: x in s ==> x == s[0] || x in s[1..];
      if s[0] >= m then s[0] else m
  }

  // ---------------------------------------------------------------------------
  // Windows

  /** Dropping the last element of a concatenation with a non-empty second
      part drops it from that part. */
  lemma DropLastAppend<T>(a: seq<T>, b: seq<T>)
    requires b != []
    ensures (a + b)[..|a + b| - 1] == a + b[..|b| - 1]
    ensures (a + b)[|a + b| - 1] == b[|b| - 1]
  {
  }

  /** `int(block / blocks_per_window)`: the window containing `block`, as
      both roles compute it. */
  function WindowOf(block: nat, blocksPerWindow: nat): (w: nat)
    requires blocksPerWindow > 0
    ensures w * blocksPerWindow <= block < (w + 1) * blocksPerWindow
  {
    block / blocksPerWindow
  }

  /** A later block never lies in an earlier window. */
  lemma WindowOfMonotone(b1: nat, b2: nat, blocksPerWindow: nat)
    requires blocksPerWindow > 0 && b1 <= b2
    ensures WindowOf(b1, blocksPerWindow) <= WindowOf(b2, blocksPerWindow)
  {
    var w1 := WindowOf(b1, blocksPerWindow);
    var w2 := WindowOf(b2, blocksPerWindow);
    if w2 < w1 {
      MulLeft(w2 + 1, w1, blocksPerWindow);
    }
  }

  lemma MulLeft(a: int, b: int, c: nat)
    requires a <= b
    ensures a * c <= b * c
  {
    var d := b - a;
    assert b * c == a * c + d * c;
  }

  // ---------------------------------------------------------------------------
  // `step % frequency == 0`, the cadence test both roles use for checkpoints.
  // Python's % and Dafny's % differ for a negative operand, but they agree on
  // whether the remainder is zero.

  function CheckpointDue(step: int, frequency: int): bool
    requires frequency != 0
  {
    step % frequency == 0
  }

  /** A checkpoint is due exactly once every `frequency` steps: when one is due
      at `step` the next `frequency - 1` steps are skipped and the one after is
      due again. */
  lemma CheckpointPeriodic(step: int, frequency: int, k: int)
    requires frequency > 0 && CheckpointDue(step, frequency) && 0 <= k <= frequency
    ensures CheckpointDue(step + k, frequency) <==> k == 0 || k == frequency
  {
    var q := step / frequency;
    assert step == q * frequency;
    if k == frequency {
      RemainderOf(q + 1, frequency, 0);
      assert step + k == (q + 1) * frequency + 0;
    } else {
      RemainderOf(q, frequency, k);
    }
  }

  /** The remainder of q * f + k by f is k, for 0 <= k < f. */
  lemma RemainderOf(q: int, f: int, k: int)
    requires f > 0 && 0 <= k < f
    ensures (q * f + k) % f == k
  {
    var a := q * f + k;
    var d := q - a / f;
    assert a == (a / f) * f + a % f;
    assert d * f == a % f - k;
    if d >= 1 {
      assert false;
    } else if d <= -1 {
      assert false;
    }
  }
}

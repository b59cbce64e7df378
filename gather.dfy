/** What the miner does with a gather result: the validation pass that splits
    the gathered uids into valid and skipped ones, the per-parameter
    collection of every peer's `idxs`/`vals` entries, and the two peer lists
    of the debug record. */
module Gather {
  import opened Common

  /** One entry of `state_dicts`: a peer's uid and the state dict it sent. */
  datatype PeerState = PeerState(uid: int, state: StateDict)

  /** A dict's keys are distinct; its entries iterate in insertion order. */
  ghost predicate DistinctUids(dicts: seq<PeerState>) {
    forall i, j :: 0 <= i < j < |dicts| ==> dicts[i].uid != dicts[j].uid
  }

  /** `state_dicts.get(uid, {})` */
  function StateOf(dicts: seq<PeerState>, uid: int): StateDict {
    if dicts == [] then map[]
    else if dicts[0].uid == uid then dicts[0].state
    else StateOf(dicts[1..], uid)
  }

  /** A uid that sent a state dict gets that one. */
  lemma {:induction false} StateOfEntry(dicts: seq<PeerState>, k: nat)
    requires DistinctUids(dicts) && k < |dicts|
    ensures StateOf(dicts, dicts[k].uid) == dicts[k].state
  {
    if k > 0 {
      assert dicts[0].uid != dicts[k].uid;
      var rest := dicts[1..];
      assert DistinctUids(rest) by {
        forall i, j | 0 <= i < j < |rest| ensures rest[i].uid != rest[j].uid {
          assert rest[i] == dicts[i + 1] && rest[j] == dicts[j + 1];
        }
      }
      StateOfEntry(rest, k - 1);
      assert rest[k - 1] == dicts[k];
    }
  }

  /** A uid that sent nothing gets the empty dict. */
  lemma {:induction false} StateOfMissing(dicts: seq<PeerState>, uid: int)
    requires forall k :: 0 <= k < |dicts| ==> dicts[k].uid != uid
    ensures StateOf(dicts, uid) == map[]
  {
    if dicts != [] {
      assert dicts[0].uid != uid;
      var rest := dicts[1..];
      assert forall k :: 0 <= k < |rest| ==> rest[k] == dicts[k + 1];
      StateOfMissing(rest, uid);
    }
  }

  /** The gather result: which uids counted, which were skipped, and every
      state dict that arrived. */
  class GatherResult {
    var uids: seq<int>
    var skippedUids: seq<int>
    var stateDicts: seq<PeerState>

    constructor (uids: seq<int>, skippedUids: seq<int>, stateDicts: seq<PeerState>)
      ensures this.uids == uids && this.skippedUids == skippedUids && this.stateDicts == stateDicts
    {
      this.uids := uids;
      this.skippedUids := skippedUids;
      this.stateDicts := stateDicts;
    }
  }

  // ---------------------------------------------------------------------------
  // Validation

  /** The uids whose state dict passes `isValid`, in their original order. */
  function ValidUids(uids: seq<int>, dicts: seq<PeerState>, isValid: StateDict -> bool): seq<int> {
    if uids == [] then []
    else
      var u := uids[|uids| - 1];
      ValidUids(uids[..|uids| - 1], dicts, isValid) + (if isValid(StateOf(dicts, u)) then [u] else [])
  }

  /** The uids whose state dict fails `isValid`, in their original order. */
  function InvalidUids(uids: seq<int>, dicts: seq<PeerState>, isValid: StateDict -> bool): seq<int> {
    if uids == [] then []
    else
      var u := uids[|uids| - 1];
      InvalidUids(uids[..|uids| - 1], dicts, isValid) + (if isValid(StateOf(dicts, u)) then [] else [u])
  }

  /** Every gathered uid lands in exactly one of the two lists, as often as
      it was gathered; the valid ones pass the check and the invalid ones
      fail it. */
  lemma ValidationPartition(uids: seq<int>, dicts: seq<PeerState>, isValid: StateDict -> bool)
    ensures multiset(ValidUids(uids, dicts, isValid)) + multiset(InvalidUids(uids, dicts, isValid)) == multiset(uids)
    ensures forall u :: u in ValidUids(uids, dicts, isValid) <==> u in uids && isValid(StateOf(dicts, u))
    ensures forall u :: u in InvalidUids(uids, dicts, isValid) <==> u in uids && !isValid(StateOf(dicts, u))
  {
    ValidationCounts(uids, dicts, isValid);
    ValidMembers(uids, dicts, isValid);
    InvalidMembers(uids, dicts, isValid);
  }

  lemma {:induction false} ValidationCounts(uids: seq<int>, dicts: seq<PeerState>, isValid: StateDict -> bool)
    ensures multiset(ValidUids(uids, dicts, isValid)) + multiset(InvalidUids(uids, dicts, isValid)) == multiset(uids)
  {
    if uids != [] {
      var init, u := uids[..|uids| - 1], uids[|uids| - 1];
      ValidationCounts(init, dicts, isValid);
      assert uids == init + [u];
      assert multiset(uids) == multiset(init) + multiset{u};
    }
  }

  lemma {:induction false} ValidMembers(uids: seq<int>, dicts: seq<PeerState>, isValid: StateDict -> bool)
    ensures forall u :: u in ValidUids(uids, dicts, isValid) <==> u in uids && isValid(StateOf(dicts, u))
  {
    if uids != [] {
      var init, u := uids[..|uids| - 1], uids[|uids| - 1];
      ValidMembers(init, dicts, isValid);
      assert uids == init + [u];
      assert forall x :: x in uids <==> x in init || x == u;
    }
  }

  lemma {:induction false} InvalidMembers(uids: seq<int>, dicts: seq<PeerState>, isValid: StateDict -> bool)
    ensures forall u :: u in InvalidUids(uids, dicts, isValid) <==> u in uids && !isValid(StateOf(dicts, u))
  {
    if uids != [] {
      var init, u := uids[..|uids| - 1], uids[|uids| - 1];
      InvalidMembers(init, dicts, isValid);
      assert uids == init + [u];
      assert forall x :: x in uids <==> x in init || x == u;
    }
  }

  /** Validation keeps the order: the valid uids of a concatenation are the
      valid uids of each part, one after the other. */
  lemma {:induction false} ValidUidsAppend(a: seq<int>, b: seq<int>, dicts: seq<PeerState>, isValid: StateDict -> bool)
    ensures ValidUids(a + b, dicts, isValid) == ValidUids(a, dicts, isValid) + ValidUids(b, dicts, isValid)
    ensures InvalidUids(a + b, dicts, isValid) == InvalidUids(a, dicts, isValid) + InvalidUids(b, dicts, isValid)
  {
    if b != [] {
      var init := b[..|b| - 1];
      DropLastAppend(a, b);
      ValidUidsAppend(a, init, dicts, isValid);
    } else {
      assert a + b == a;
    }
  }

  /** When every uid passes, validation changes nothing. */
  lemma {:induction false} AllValidKept(uids: seq<int>, dicts: seq<PeerState>, isValid: StateDict -> bool)
    requires forall k :: 0 <= k < |uids| ==> isValid(StateOf(dicts, uids[k]))
    ensures ValidUids(uids, dicts, isValid) == uids
    ensures InvalidUids(uids, dicts, isValid) == []
  {
    if uids != [] {
      var n := |uids| - 1;
      var init := uids[..n];
      forall k | 0 <= k < |init|
        ensures isValid(StateOf(dicts, init[k]))
      {
        assert init[k] == uids[k];
      }
      AllValidKept(init, dicts, isValid);
      assert isValid(StateOf(dicts, uids[n]));
      assert ValidUids(uids, dicts, isValid) == ValidUids(init, dicts, isValid) + [uids[n]];
      assert uids == init + [uids[n]];
    }
  }

  /** When no uid passes, every uid is skipped. */
  lemma {:induction false} NoneValidSkipped(uids: seq<int>, dicts: seq<PeerState>, isValid: StateDict -> bool)
    requires forall k :: 0 <= k < |uids| ==> !isValid(StateOf(dicts, uids[k]))
    ensures ValidUids(uids, dicts, isValid) == []
    ensures InvalidUids(uids, dicts, isValid) == uids
  {
    if uids != [] {
      var n := |uids| - 1;
      var init := uids[..n];
      forall k | 0 <= k < |init|
        ensures !isValid(StateOf(dicts, init[k]))
      {
        assert init[k] == uids[k];
      }
      NoneValidSkipped(init, dicts, isValid);
      assert !isValid(StateOf(dicts, uids[n]));
      assert InvalidUids(uids, dicts, isValid) == InvalidUids(init, dicts, isValid) + [uids[n]];
      assert uids == init + [uids[n]];
    }
  }

  /** The validation loop: `uids` becomes the valid uids, the invalid ones
      are appended to `skipped_uids`, and `state_dicts` is left alone. */
  method ValidateGathered(g: GatherResult, isValid: StateDict -> bool)
    modifies g
    ensures g.uids == ValidUids(old(g.uids), old(g.stateDicts), isValid)
    ensures g.skippedUids == old(g.skippedUids) + InvalidUids(old(g.uids), old(g.stateDicts), isValid)
    ensures g.stateDicts == old(g.stateDicts)
  {
    var valid, invalid := [], [];
    var i := 0;
    while i < |g.uids|
      invariant 0 <= i <= |g.uids|
      invariant valid == ValidUids(g.uids[..i], g.stateDicts, isValid)
      invariant invalid == InvalidUids(g.uids[..i], g.stateDicts, isValid)
    {
      assert g.uids[..i + 1][..i] == g.uids[..i];
      var peerState := StateOf(g.stateDicts, g.uids[i]);
      if isValid(peerState) {
        valid := valid + [g.uids[i]];
      } else {
        invalid := invalid + [g.uids[i]];
      }
      i := i + 1;
    }
    assert g.uids[..i] == g.uids;
    g.uids := valid;
    g.skippedUids := g.skippedUids + invalid;
  }

  // ---------------------------------------------------------------------------
  // Collecting idxs / vals per parameter

  /** A list or tuple is taken as it is; anything else is wrapped. */
  function AsList(v: Value): seq<Tensor> {
    match v
    case Items(items) => items
    case Single(t) => [t]
  }

  /** Whether a state dict carries both keys of a parameter. */
  predicate HoldsBoth(state: StateDict, idxsKey: string, valsKey: string) {
    idxsKey in state && valsKey in state
  }

  /** An entry's contribution to the idxs list of a parameter. */
  function IdxsOf(p: PeerState, idxsKey: string, valsKey: string): seq<Tensor> {
    if HoldsBoth(p.state, idxsKey, valsKey) then AsList(p.state[idxsKey]) else []
  }

  /** An entry's contribution to the vals list of a parameter. */
  function ValsOf(p: PeerState, idxsKey: string, valsKey: string): seq<Tensor> {
    if HoldsBoth(p.state, idxsKey, valsKey) then AsList(p.state[valsKey]) else []
  }

  /** The `all_idxs` of a parameter: every entry's idxs list, in the order
      of `state_dicts`, for each entry that holds both keys. */
  function GatheredIdxs(dicts: seq<PeerState>, idxsKey: string, valsKey: string): seq<Tensor> {
    if dicts == [] then []
    else GatheredIdxs(dicts[..|dicts| - 1], idxsKey, valsKey) + IdxsOf(dicts[|dicts| - 1], idxsKey, valsKey)
  }

  /** The `all_vals` of a parameter, in the same order. */
  function GatheredVals(dicts: seq<PeerState>, idxsKey: string, valsKey: string): seq<Tensor> {
    if dicts == [] then []
    else GatheredVals(dicts[..|dicts| - 1], idxsKey, valsKey) + ValsOf(dicts[|dicts| - 1], idxsKey, valsKey)
  }

  /** Collection distributes over the entries: the lists of a split dict are
      the lists of its two parts, concatenated. */
  lemma GatheredAppend(a: seq<PeerState>, b: seq<PeerState>, idxsKey: string, valsKey: string)
    ensures GatheredIdxs(a + b, idxsKey, valsKey) == GatheredIdxs(a, idxsKey, valsKey) + GatheredIdxs(b, idxsKey, valsKey)
    ensures GatheredVals(a + b, idxsKey, valsKey) == GatheredVals(a, idxsKey, valsKey) + GatheredVals(b, idxsKey, valsKey)
  {
    GatheredIdxsAppend(a, b, idxsKey, valsKey);
    GatheredValsAppend(a, b, idxsKey, valsKey);
  }

  lemma {:induction false} GatheredIdxsAppend(a: seq<PeerState>, b: seq<PeerState>, idxsKey: string, valsKey: string)
    ensures GatheredIdxs(a + b, idxsKey, valsKey) == GatheredIdxs(a, idxsKey, valsKey) + GatheredIdxs(b, idxsKey, valsKey)
  {
    if b == [] {
      assert a + b == a;
    } else {
      var init := b[..|b| - 1];
      DropLastAppend(a, b);
      GatheredIdxsAppend(a, init, idxsKey, valsKey);
    }
  }

  lemma {:induction false} GatheredValsAppend(a: seq<PeerState>, b: seq<PeerState>, idxsKey: string, valsKey: string)
    ensures GatheredVals(a + b, idxsKey, valsKey) == GatheredVals(a, idxsKey, valsKey) + GatheredVals(b, idxsKey, valsKey)
  {
    if b == [] {
      assert a + b == a;
    } else {
      var init := b[..|b| - 1];
      DropLastAppend(a, b);
      GatheredValsAppend(a, init, idxsKey, valsKey);
    }
  }

  /** Every entry of `state_dicts` that holds both keys contributes its lists
      where it stands, whether or not its uid passed validation: the
      collection never looks at `uids`. */
  lemma EveryEntryContributes(dicts: seq<PeerState>, k: nat, idxsKey: string, valsKey: string)
    requires k < |dicts| && HoldsBoth(dicts[k].state, idxsKey, valsKey)
    ensures GatheredIdxs(dicts, idxsKey, valsKey) ==
              GatheredIdxs(dicts[..k], idxsKey, valsKey) + AsList(dicts[k].state[idxsKey]) + GatheredIdxs(dicts[k + 1..], idxsKey, valsKey)
    ensures GatheredVals(dicts, idxsKey, valsKey) ==
              GatheredVals(dicts[..k], idxsKey, valsKey) + AsList(dicts[k].state[valsKey]) + GatheredVals(dicts[k + 1..], idxsKey, valsKey)
  {
    assert dicts == dicts[..k] + [dicts[k]] + dicts[k + 1..];
    GatheredAppend(dicts[..k] + [dicts[k]], dicts[k + 1..], idxsKey, valsKey);
    GatheredAppend(dicts[..k], [dicts[k]], idxsKey, valsKey);
    assert [dicts[k]][..0] == [];
  }

  /** An entry missing either key contributes nothing. */
  lemma {:induction false} GatheredEmpty(dicts: seq<PeerState>, idxsKey: string, valsKey: string)
    requires forall k :: 0 <= k < |dicts| ==> !HoldsBoth(dicts[k].state, idxsKey, valsKey)
    ensures GatheredIdxs(dicts, idxsKey, valsKey) == [] && GatheredVals(dicts, idxsKey, valsKey) == []
  {
    if dicts != [] {
      var init := dicts[..|dicts| - 1];
      assert forall k :: 0 <= k < |init| ==> init[k] == dicts[k];
      GatheredEmpty(init, idxsKey, valsKey);
    }
  }

  /** The collection loop for one parameter. */
  method CollectParameter(dicts: seq<PeerState>, name: string) returns (allIdxs: seq<Tensor>, allVals: seq<Tensor>)
    ensures allIdxs == GatheredIdxs(dicts, name + "idxs", name + "vals")
    ensures allVals == GatheredVals(dicts, name + "idxs", name + "vals")
  {
    var idxsKey, valsKey := name + "idxs", name + "vals";
    allIdxs, allVals := [], [];
    var i := 0;
    while i < |dicts|
      invariant 0 <= i <= |dicts|
      invariant allIdxs == GatheredIdxs(dicts[..i], idxsKey, valsKey)
      invariant allVals == GatheredVals(dicts[..i], idxsKey, valsKey)
    {
      assert dicts[..i + 1][..i] == dicts[..i];
      var state := dicts[i].state;
      if idxsKey in state && valsKey in state {
        allIdxs := allIdxs + AsList(state[idxsKey]);
        allVals := allVals + AsList(state[valsKey]);
      }
      i := i + 1;
    }
    assert dicts[..i] == dicts;
  }

  /** Whether a parameter is updated: both collected lists are non-empty. */
  predicate Updates(dicts: seq<PeerState>, name: string) {
    GatheredIdxs(dicts, name + "idxs", name + "vals") != [] && GatheredVals(dicts, name + "idxs", name + "vals") != []
  }

  /** The collected idxs list is non-empty exactly when some entry holds
      both keys with a non-empty idxs list. */
  lemma GatheredIdxsNonEmpty(dicts: seq<PeerState>, idxsKey: string, valsKey: string)
    ensures GatheredIdxs(dicts, idxsKey, valsKey) != [] <==> exists k :: 0 <= k < |dicts| && IdxsOf(dicts[k], idxsKey, valsKey) != []
  {
    if k :| 0 <= k < |dicts| && IdxsOf(dicts[k], idxsKey, valsKey) != [] {
      EveryEntryContributes(dicts, k, idxsKey, valsKey);
    } else {
      NoIdxsGathered(dicts, idxsKey, valsKey);
    }
  }

  lemma {:induction false} NoIdxsGathered(dicts: seq<PeerState>, idxsKey: string, valsKey: string)
    requires forall k :: 0 <= k < |dicts| ==> IdxsOf(dicts[k], idxsKey, valsKey) == []
    ensures GatheredIdxs(dicts, idxsKey, valsKey) == []
  {
    if dicts != [] {
      var n := |dicts| - 1;
      var init := dicts[..n];
      forall k | 0 <= k < |init|
        ensures IdxsOf(init[k], idxsKey, valsKey) == []
      {
        assert init[k] == dicts[k];
      }
      NoIdxsGathered(init, idxsKey, valsKey);
      assert IdxsOf(dicts[n], idxsKey, valsKey) == [];
    }
  }

  /** The collected vals list is non-empty exactly when some entry holds
      both keys with a non-empty vals list. */
  lemma GatheredValsNonEmpty(dicts: seq<PeerState>, idxsKey: string, valsKey: string)
    ensures GatheredVals(dicts, idxsKey, valsKey) != [] <==> exists k :: 0 <= k < |dicts| && ValsOf(dicts[k], idxsKey, valsKey) != []
  {
    if k :| 0 <= k < |dicts| && ValsOf(dicts[k], idxsKey, valsKey) != [] {
      EveryEntryContributes(dicts, k, idxsKey, valsKey);
    } else {
      NoValsGathered(dicts, idxsKey, valsKey);
    }
  }

  lemma {:induction false} NoValsGathered(dicts: seq<PeerState>, idxsKey: string, valsKey: string)
    requires forall k :: 0 <= k < |dicts| ==> ValsOf(dicts[k], idxsKey, valsKey) == []
    ensures GatheredVals(dicts, idxsKey, valsKey) == []
  {
    if dicts != [] {
      var n := |dicts| - 1;
      var init := dicts[..n];
      forall k | 0 <= k < |init|
        ensures ValsOf(init[k], idxsKey, valsKey) == []
      {
        assert init[k] == dicts[k];
      }
      NoValsGathered(init, idxsKey, valsKey);
      assert ValsOf(dicts[n], idxsKey, valsKey) == [];
    }
  }

  /** The parameters the update loop changes, in parameter order. */
  function UpdatedParams(dicts: seq<PeerState>, paramNames: seq<string>): (r: seq<string>)
    ensures forall n :: n in r <==> n in paramNames && Updates(dicts, n)
  {
    if paramNames == [] then []
    else
      var init, n := paramNames[..|paramNames| - 1], paramNames[|paramNames| - 1];
      assert paramNames == init + [n];
      UpdatedParams(dicts, init) + (if Updates(dicts, n) then [n] else [])
  }

  /** The update loop over named_parameters: each parameter whose collected
      lists are both non-empty is updated (the update itself is tensor
      arithmetic); the others are skipped. */
  method ApplyGathered(dicts: seq<PeerState>, paramNames: seq<string>) returns (updated: seq<string>)
    ensures updated == UpdatedParams(dicts, paramNames)
  {
    updated := [];
    var i := 0;
    while i < |paramNames|
      invariant 0 <= i <= |paramNames|
      invariant updated == UpdatedParams(dicts, paramNames[..i])
    {
      assert paramNames[..i + 1][..i] == paramNames[..i];
      var allIdxs, allVals := CollectParameter(dicts, paramNames[i]);
      if allIdxs != [] && allVals != [] {
        updated := updated + [paramNames[i]];
      }
      i := i + 1;
    }
    assert paramNames[..i] == paramNames;
  }

  // ---------------------------------------------------------------------------
  // The debug record's peer lists

  /** The elements of s not in excluded, in order. */
  function Without(s: seq<int>, excluded: seq<int>): (r: seq<int>)
    ensures forall x :: x in r <==> x in s && x !in excluded
  {
    if s == [] then []
    else (if s[0] in excluded then [] else [s[0]]) + Without(s[1..], excluded)
  }

  /** `sorted(list(set(peers) - set(skipped_uids)))` */
  function SuccessfulPeers(peers: seq<int>, skipped: seq<int>): (r: seq<int>)
    ensures StrictlyIncreasing(r)
    ensures forall x :: x in r <==> x in peers && x !in skipped
  {
    SortedDistinct(Without(peers, skipped))
  }

  /** `sorted(list(skipped_uids))`: every skipped uid, repeats kept. */
  function SkippedPeers(skipped: seq<int>): (r: seq<int>)
    ensures multiset(r) == multiset(skipped)
    ensures forall i, j :: 0 <= i < j < |r| ==> r[i] <= r[j]
  {
    var r := SortBy(skipped, Id);
    assert forall i, j :: 0 <= i < j < |r| ==> Id(r[i]) <= Id(r[j]);
    r
  }

  /** The two lists never share a peer, and a peer that was gathered by the
      round's peer list is in exactly one of them. */
  lemma DebugListsPartition(peers: seq<int>, skipped: seq<int>)
    ensures forall x :: !(x in SuccessfulPeers(peers, skipped) && x in SkippedPeers(skipped))
    ensures forall x :: x in peers ==> (x in SuccessfulPeers(peers, skipped) <==> x !in SkippedPeers(skipped))
  {
    var r := SkippedPeers(skipped);
    assert forall x :: x in r <==> x in multiset(r);
    assert forall x :: x in skipped <==> x in multiset(skipped);
  }
}

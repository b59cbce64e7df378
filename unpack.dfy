/** The miner's decoder for aggregation-server data: each byte of a packed
    tensor holds eight ±1 values, bit i of byte k giving the value at flat
    position 8k + i (set: +1, clear: -1). */
module Unpack {
  import opened Common

  /** The number of elements of a tensor of the given shape. */
  function Product(shape: seq<nat>): nat {
    if shape == [] then 1 else shape[0] * Product(shape[1..])
  }

  /** `1 << i` for a bit position. */
  function Mask(i: nat): (m: bv8)
    requires i < 8
    ensures m == 1 << i
  {
    if i == 0 then 1 else if i == 1 then 2 else if i == 2 then 4 else if i == 3 then 8
    else if i == 4 then 16 else if i == 5 then 32 else if i == 6 then 64 else 128
  }

  /** `(b & (1 << i)) >> i`: bit i of b, as 0 or 1. */
  function Bit(b: bv8, i: nat): (r: int)
    requires i < 8
    ensures r == if b & Mask(i) == 0 then 0 else 1
  {
    ((b & (1 << i)) >> i) as int
  }

  /** `bits * 2 - 1`: the ±1 value bit i of b stands for. */
  function Sign(b: bv8, i: nat): (v: int)
    requires i < 8
    ensures v == if b & Mask(i) == 0 then -1 else 1
  {
    Bit(b, i) * 2 - 1
  }

  /** The eight values of one byte, lowest bit first. */
  function ByteValues(b: bv8): (r: seq<int>)
    ensures |r| == 8
  {
    [Sign(b, 0), Sign(b, 1), Sign(b, 2), Sign(b, 3), Sign(b, 4), Sign(b, 5), Sign(b, 6), Sign(b, 7)]
  }

  /** The decoded flat tensor: the bytes' values one after the other. */
  function Unpacked(packed: seq<bv8>): (r: seq<int>)
    ensures |r| == 8 * |packed|
  {
    if packed == [] then [] else ByteValues(packed[0]) + Unpacked(packed[1..])
  }

  /** Position 8k + i of the decoded tensor is the sign of bit i of byte k,
      and every decoded value is ±1. */
  lemma {:induction false} UnpackedAt(packed: seq<bv8>, k: nat, i: nat)
    requires k < |packed| && i < 8
    ensures Unpacked(packed)[8 * k + i] == Sign(packed[k], i)
  {
    var u := Unpacked(packed);
    assert u == ByteValues(packed[0]) + Unpacked(packed[1..]);
    if k > 0 {
      UnpackedAt(packed[1..], k - 1, i);
      assert packed[1..][k - 1] == packed[k];
      assert u[8 * k + i] == Unpacked(packed[1..])[8 * (k - 1) + i];
    } else {
      ByteValuesAt(packed[0], i);
    }
  }

  lemma ByteValuesAt(b: bv8, i: nat)
    requires i < 8
    ensures ByteValues(b)[i] == Sign(b, i)
  {
    var r := ByteValues(b);
    if i == 0 { assert r[0] == Sign(b, 0); }
    else if i == 1 { assert r[1] == Sign(b, 1); }
    else if i == 2 { assert r[2] == Sign(b, 2); }
    else if i == 3 { assert r[3] == Sign(b, 3); }
    else if i == 4 { assert r[4] == Sign(b, 4); }
    else if i == 5 { assert r[5] == Sign(b, 5); }
    else if i == 6 { assert r[6] == Sign(b, 6); }
    else { assert r[7] == Sign(b, 7); }
  }

  // ---------------------------------------------------------------------------
  // The reference encoder: eight ±1 values to one byte

  /** Bit i set when value i is +1. */
  function PackByte(v: seq<int>): bv8
    requires |v| == 8
  {
    (if v[0] == 1 then 1 else 0) | (if v[1] == 1 then 2 else 0) | (if v[2] == 1 then 4 else 0)
      | (if v[3] == 1 then 8 else 0) | (if v[4] == 1 then 16 else 0) | (if v[5] == 1 then 32 else 0)
      | (if v[6] == 1 then 64 else 0) | (if v[7] == 1 then 128 else 0)
  }

  ghost predicate AllSigns(v: seq<int>) {
    forall j :: 0 <= j < |v| ==> v[j] == 1 || v[j] == -1
  }

  /** A sequence of ±1 values packed eight to a byte. */
  function Pack(v: seq<int>): (r: seq<bv8>)
    requires |v| % 8 == 0
    ensures |r| == |v| / 8
  {
    if v == [] then [] else [PackByte(v[..8])] + Pack(v[8..])
  }

  lemma ByteRoundTrip(b: bv8)
    ensures PackByte(ByteValues(b)) == b
  {
  }

  /** Bit i of a packed byte is set exactly when value i is +1. */
  lemma PackedBits(v: seq<int>)
    requires |v| == 8
    ensures var b := PackByte(v);
            (b & 1 == 0 <==> v[0] != 1) && (b & 2 == 0 <==> v[1] != 1)
            && (b & 4 == 0 <==> v[2] != 1) && (b & 8 == 0 <==> v[3] != 1)
            && (b & 16 == 0 <==> v[4] != 1) && (b & 32 == 0 <==> v[5] != 1)
            && (b & 64 == 0 <==> v[6] != 1) && (b & 128 == 0 <==> v[7] != 1)
  {
  }

  lemma ValuesRoundTrip(v: seq<int>)
    requires |v| == 8 && AllSigns(v)
    ensures ByteValues(PackByte(v)) == v
  {
    PackedBits(v);
    SameEight(ByteValues(PackByte(v)), v);
  }

  lemma SameEight(r: seq<int>, v: seq<int>)
    requires |r| == 8 && |v| == 8
    requires r[0] == v[0] && r[1] == v[1] && r[2] == v[2] && r[3] == v[3]
    requires r[4] == v[4] && r[5] == v[5] && r[6] == v[6] && r[7] == v[7]
    ensures r == v
  {
    assert forall j :: 0 <= j < 8 ==> r[j] == v[j];
  }

  /** Decoding inverts packing, and packing inverts decoding. */
  lemma {:induction false} UnpackPack(v: seq<int>)
    requires |v| % 8 == 0 && AllSigns(v)
    ensures Unpacked(Pack(v)) == v
  {
    if v != [] {
      ValuesRoundTrip(v[..8]);
      UnpackPack(v[8..]);
      assert v == v[..8] + v[8..];
    }
  }

  lemma {:induction false} PackUnpack(packed: seq<bv8>)
    ensures Pack(Unpacked(packed)) == packed
  {
    if packed != [] {
      var u := Unpacked(packed);
      assert u[..8] == ByteValues(packed[0]);
      assert u[8..] == Unpacked(packed[1..]);
      ByteRoundTrip(packed[0]);
      PackUnpack(packed[1..]);
    }
  }

  // ---------------------------------------------------------------------------
  // unpack_binary_tensor

  lemma FlatIndex(k: nat, i: nat)
    requires i < 8
    ensures (8 * k + i) / 8 == k && (8 * k + i) % 8 == i
  {
  }

  /** Fills a zero buffer of prod(shape) elements one bit plane at a time:
      for bit i, every eighth position starting at i. */
  method UnpackBinaryTensor(packed: seq<bv8>, shape: seq<nat>) returns (unpacked: array<int>)
    requires Product(shape) == 8 * |packed|
    ensures fresh(unpacked)
    ensures unpacked.Length == Product(shape)
    ensures unpacked[..] == Unpacked(packed)
  {
    var total := Product(shape);
    unpacked := new int[total](_ => 0);
    for i := 0 to 8
      invariant unpacked.Length == total
      invariant forall j :: 0 <= j < total ==>
                  unpacked[j] == if j % 8 < i then Sign(packed[j / 8], j % 8) else 0
    {
      for k := 0 to |packed|
        invariant forall j :: 0 <= j < total ==>
                    unpacked[j] == if j % 8 < i || (j % 8 == i && j / 8 < k) then Sign(packed[j / 8], j % 8) else 0
      {
        FlatIndex(k, i);
        unpacked[8 * k + i] := Bit(packed[k], i) * 2 - 1;
      }
    }
    forall j | 0 <= j < total
      ensures unpacked[j] == Unpacked(packed)[j]
    {
      UnpackedAt(packed, j / 8, j % 8);
    }
  }

  // ---------------------------------------------------------------------------
  // process_loaded_data

  /** What load_aggregation returns: the three metadata fields, each possibly
      absent, and a packed tensor per parameter name present. */
  datatype CompressedData = CompressedData(
    timestamp: Option<int>, window: Option<int>, version: Option<string>,
    packed: map<string, seq<bv8>>)

  /** The unpacked result: the metadata as found, and a ±1 tensor for every
      model parameter the data holds. */
  datatype Processed = Processed(
    timestamp: Option<int>, window: Option<int>, version: Option<string>,
    tensors: map<string, seq<int>>)

  /** A model parameter: its name and shape. */
  datatype Param = Param(name: string, shape: seq<nat>)

  /** Unpacking succeeds for every parameter the data holds. */
  ghost predicate ShapesMatch(data: CompressedData, params: seq<Param>) {
    forall k :: 0 <= k < |params| && params[k].name in data.packed ==>
      Product(params[k].shape) == 8 * |data.packed[params[k].name]|
  }

  /** The names of the first i + 1 parameters are those of the first i and
      the name of parameter i. */
  lemma NamesStep(params: seq<Param>, i: nat)
    requires i < |params|
    ensures (set k | 0 <= k < i + 1 :: params[k].name) == (set k | 0 <= k < i :: params[k].name) + {params[i].name}
  {
  }

  method ProcessLoadedData(data: CompressedData, params: seq<Param>) returns (r: Processed)
    requires ShapesMatch(data, params)
    ensures r.timestamp == data.timestamp && r.window == data.window && r.version == data.version
    ensures r.tensors.Keys == data.packed.Keys * (set k | 0 <= k < |params| :: params[k].name)
    ensures forall n :: n in r.tensors ==> r.tensors[n] == Unpacked(data.packed[n])
  {
    var tensors: map<string, seq<int>> := map[];
    var i := 0;
    while i < |params|
      invariant 0 <= i <= |params|
      invariant tensors.Keys == data.packed.Keys * (set k | 0 <= k < i :: params[k].name)
      invariant forall n :: n in tensors ==> tensors[n] == Unpacked(data.packed[n])
    {
      var name := params[i].name;
      if name in data.packed {
        var unpacked := UnpackBinaryTensor(data.packed[name], params[i].shape);
        tensors := tensors[name := unpacked[..]];
      }
      NamesStep(params, i);
      i := i + 1;
    }
    r := Processed(data.timestamp, data.window, data.version, tensors);
  }
}

/** The byte readers of script-utils helper.rs (parse_dyn_vec_len, u32_from_slice,
    u64_from_slice), with the big-endian encoding they invert. Each reader copies its
    slice into a fixed buffer with `copy_from_slice`, which panics unless the lengths
    match: that panic is the Abort outcome here. */
module HelperBytes {
  import opened Host
  import opened Errors

  /** The length of a dynamic field's size prefix (u16). */
  const DYN_MIN_LEN: nat := 2

  function Pow256(n: nat): (r: nat)
    ensures r >= 1
  {
    if n == 0 then 1 else 256 * Pow256(n - 1)
  }

  /** The unsigned number whose big-endian bytes are `s`. */
  function BeValue(s: Bytes): (v: nat)
    ensures v < Pow256(|s|)
  {
    if |s| == 0 then 0 else BeValue(s[..|s| - 1]) * 256 + s[|s| - 1]
  }

  /** The `n` big-endian bytes of `v` (`to_be_bytes`). */
  function BeBytes(v: nat, n: nat): (s: Bytes)
    requires v < Pow256(n)
    ensures |s| == n
    ensures BeValue(s) == v
  {
    if n == 0 then [] else
      var s := BeBytes(v / 256, n - 1) + [v % 256];
      assert s[..n - 1] == BeBytes(v / 256, n - 1);
      s
  }

  /** The `n` little-endian bytes of `v` (`to_le_bytes`). */
  function LeBytes(v: nat, n: nat): (s: Bytes)
    requires v < Pow256(n)
    ensures |s| == n
  {
    if n == 0 then [] else [v % 256] + LeBytes(v / 256, n - 1)
  }

  /** `to_le_bytes` of a usize on the 64-bit target; host indices always fit in 64 bits,
      where the reduction is the identity. */
  function UsizeLeBytes(v: nat): (s: Bytes)
    ensures |s| == 8
  {
    assert Pow256(8) == U64_LIMIT;
    LeBytes(v % U64_LIMIT, 8)
  }

  /** Decoding is the inverse of encoding in the other direction too. */
  lemma {:induction false} BeBytesOfValue(s: Bytes)
    ensures BeBytes(BeValue(s), |s|) == s
  {
    if |s| > 0 {
      var n := |s|;
      var init := s[..n - 1];
      BeBytesOfValue(init);
      assert BeValue(s) / 256 == BeValue(init);
      assert BeValue(s) % 256 == s[n - 1];
      assert s == init + [s[n - 1]];
    }
  }

  /** Distinct values have distinct little-endian encodings. */
  lemma {:induction false} LeBytesInjective(a: nat, b: nat, n: nat)
    requires a < Pow256(n) && b < Pow256(n)
    requires LeBytes(a, n) == LeBytes(b, n)
    ensures a == b
  {
    if n > 0 {
      assert LeBytes(a, n)[0] == a % 256 && LeBytes(b, n)[0] == b % 256;
      assert LeBytes(a, n)[1..] == LeBytes(a / 256, n - 1);
      assert LeBytes(b, n)[1..] == LeBytes(b / 256, n - 1);
      LeBytesInjective(a / 256, b / 256, n - 1);
    }
  }

  lemma UsizeLeBytesInjective(a: nat, b: nat)
    requires a < U64_LIMIT && b < U64_LIMIT
    requires UsizeLeBytes(a) == UsizeLeBytes(b)
    ensures a == b
  {
    assert Pow256(8) == U64_LIMIT;
    assert a % U64_LIMIT == a && b % U64_LIMIT == b;
    LeBytesInjective(a, b, 8);
  }

  /** A Rust range slice `data[lo..hi]`: panics unless `lo <= hi <= len`. */
  function Slice(data: Bytes, lo: nat, hi: nat): (r: Outcome<Bytes>)
    ensures r.Abort? <==> !(lo <= hi <= |data|)
    ensures r.Ok? ==> |r.value| == hi - lo && r.value == data[lo..hi]
    ensures !r.Err?
  {
    if lo <= hi <= |data| then Ok(data[lo..hi]) else Abort
  }

  /** A 2-byte big-endian size prefix (`u16::from_be_bytes`). */
  function SizePrefix(p: Bytes): (v: nat)
    requires |p| == DYN_MIN_LEN
    ensures v < 0x1_0000
  {
    p[0] as int * 256 + p[1] as int
  }

  /** The prefix written for a size reads back as that size. */
  lemma SizePrefixOfBeBytes(v: nat)
    requires v < 0x1_0000
    ensures SizePrefix(BeBytes(v, DYN_MIN_LEN)) == v
  {
    SizePrefixIsBeValue(BeBytes(v, DYN_MIN_LEN));
  }

  lemma SizePrefixIsBeValue(p: Bytes)
    requires |p| == DYN_MIN_LEN
    ensures SizePrefix(p) == BeValue(p)
  {
    assert p[..1][..0] == [];
    assert p[..1][0] == p[0];
  }

  /** parse_dyn_vec_len: the u16 size prefix plus the prefix's own 2 bytes. */
  function ParseDynVecLen(data: Bytes): (r: Outcome<nat>)
    ensures r.Abort? <==> |data| != DYN_MIN_LEN
    ensures r.Ok? ==> DYN_MIN_LEN <= r.value <= 0x1_0001
    ensures r.Ok? ==> r.value == SizePrefix(data) + DYN_MIN_LEN
    ensures !r.Err?
  {
    if |data| != DYN_MIN_LEN then Abort
    else Ok(SizePrefix(data) + DYN_MIN_LEN)
  }

  /** u32_from_slice: a big-endian u32 from exactly four bytes. */
  function U32FromSlice(data: Bytes): (r: Outcome<u32>)
    ensures r.Abort? <==> |data| != 4
    ensures r.Ok? ==> BeBytes(r.value, 4) == data
    ensures !r.Err?
  {
    if |data| != 4 then Abort
    else
      BeBytesOfValue(data);
      Ok(BeValue(data))
  }

  /** u64_from_slice: a big-endian u64 from exactly eight bytes. */
  function U64FromSlice(data: Bytes): (r: Outcome<u64>)
    ensures r.Abort? <==> |data| != 8
    ensures r.Ok? ==> BeBytes(r.value, 8) == data
    ensures !r.Err?
  {
    if |data| != 8 then Abort
    else
      BeBytesOfValue(data);
      assert Pow256(8) == U64_LIMIT;
      Ok(BeValue(data))
  }

  /** Reading back an encoded prefix, u32 or u64 gives the encoded number. */
  lemma ReadersInvertEncoding(size: u16, count: u32, cost: u64)
    ensures ParseDynVecLen(BeBytes(size, DYN_MIN_LEN)) == Ok(size + DYN_MIN_LEN)
    ensures U32FromSlice(BeBytes(count, 4)) == Ok(count)
    ensures U64FromSlice(BeBytes(cost, 8)) == Ok(cost)
  {
    assert Pow256(8) == U64_LIMIT;
  }

  /** A dynamic field as the decoders keep it: its 2-byte big-endian size prefix followed
      by exactly that many content bytes. */
  ghost predicate DynField(field: Bytes) {
    |field| >= DYN_MIN_LEN && |field| == SizePrefix(field[..DYN_MIN_LEN]) + DYN_MIN_LEN
  }

  /** `field` occurs in `data` starting at `start`. */
  ghost predicate At(data: Bytes, start: nat, field: Bytes) {
    start + |field| <= |data| && data[start..start + |field|] == field
  }

  lemma AtConcat(x: Bytes, y: Bytes, z: Bytes)
    ensures At(x + y + z, |x|, y)
  {
    assert (x + y + z)[|x|..|x| + |y|] == y;
  }

  /** A field that ends before `k` is still there once the data is cut at `k`. */
  lemma AtPrefix(data: Bytes, start: nat, field: Bytes, k: nat)
    requires At(data, start, field) && start + |field| <= k <= |data|
    ensures At(data[..k], start, field)
  {
    assert data[..k][start..start + |field|] == data[start..start + |field|];
  }

  /** The first `j` bytes of a field are the `j` bytes of the data where it starts. */
  lemma AtHead(data: Bytes, start: nat, field: Bytes, j: nat)
    requires At(data, start, field) && j <= |field|
    ensures data[start..start + j] == field[..j]
  {
    assert data[start..start + j] == data[start..start + |field|][..j];
  }

  /** The encoding of a dynamic field with content `content`. */
  function EncodeDyn(content: Bytes): (field: Bytes)
    requires |content| < 0x1_0000
    ensures |field| == |content| + DYN_MIN_LEN
    ensures field[..DYN_MIN_LEN] == BeBytes(|content|, DYN_MIN_LEN)
    ensures DynField(field)
  {
    var field := BeBytes(|content|, DYN_MIN_LEN) + content;
    assert field[..DYN_MIN_LEN] == BeBytes(|content|, DYN_MIN_LEN);
    field
  }

  /** A size-prefixed field at `start` that the decoder checks against the buffer, keeping
      room for the next field's size prefix (`if data.len() < index + len + DYN_MIN_LEN`):
      a buffer too short for that is `err`. */
  function CheckedDynField(data: Bytes, start: nat, err: Error): (r: Outcome<Bytes>)
    requires start + DYN_MIN_LEN <= |data|
    ensures !r.Abort?
    ensures r.Err? ==> r.error == err
    ensures r.Ok? <==> start + SizePrefix(data[start..start + DYN_MIN_LEN]) + 2 * DYN_MIN_LEN <= |data|
    ensures r.Ok? ==> |r.value| == SizePrefix(data[start..start + DYN_MIN_LEN]) + DYN_MIN_LEN
    ensures r.Ok? ==> DynField(r.value) && At(data, start, r.value)
  {
    var len := ParseDynVecLen(data[start..start + DYN_MIN_LEN]).value;
    if |data| < start + len + DYN_MIN_LEN then Err(err)
    else
      var field := data[start..start + len];
      assert field[..DYN_MIN_LEN] == data[start..start + DYN_MIN_LEN];
      Ok(field)
  }

  /** A record's last size-prefixed field, which the decoder slices without checking the
      buffer: a size prefix running past the end panics. */
  function UncheckedDynField(data: Bytes, start: nat): (r: Outcome<Bytes>)
    requires start + DYN_MIN_LEN <= |data|
    ensures !r.Err?
    ensures r.Abort? <==> |data| < start + SizePrefix(data[start..start + DYN_MIN_LEN]) + DYN_MIN_LEN
    ensures r.Ok? ==> |r.value| == SizePrefix(data[start..start + DYN_MIN_LEN]) + DYN_MIN_LEN
    ensures r.Ok? ==> DynField(r.value) && At(data, start, r.value)
  {
    var len := ParseDynVecLen(data[start..start + DYN_MIN_LEN]).value;
    var field :- Slice(data, start, start + len);
    assert field[..DYN_MIN_LEN] == data[start..start + DYN_MIN_LEN];
    Ok(field)
  }

  /** A well-formed field at `start` with room for the next size prefix after it is what
      CheckedDynField reads there. */
  lemma CheckedDynFieldReads(data: Bytes, start: nat, field: Bytes, err: Error)
    requires DynField(field) && At(data, start, field)
    requires start + |field| + DYN_MIN_LEN <= |data|
    ensures CheckedDynField(data, start, err) == Ok(field)
  {
    AtHead(data, start, field, DYN_MIN_LEN);
  }

  /** A well-formed field at `start` is what UncheckedDynField reads there. */
  lemma UncheckedDynFieldReads(data: Bytes, start: nat, field: Bytes)
    requires DynField(field) && At(data, start, field)
    ensures UncheckedDynField(data, start) == Ok(field)
  {
    AtHead(data, start, field, DYN_MIN_LEN);
  }
}

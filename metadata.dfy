/** The metadata cell's data record (script-utils metadata.rs):
    `name: <size: u16> + <content> | data: <size: u16> + <content>`, with no version byte.
    The record's doc comment gives `data` a u32 size; the parser reads a u16, and so
    does this model. */
module MetadataCell {
  import opened Host
  import opened Errors
  import opened HelperBytes

  const FIXED_LEN: nat := 0
  const METADATA_DATA_MIN_LEN: nat := 4
  const METADATA_TYPE_ARGS_LEN: nat := 20

  /** Both fields keep their 2-byte size prefix. */
  datatype Metadata = Metadata(name: Bytes, data: Bytes)

  /** Metadata::from_data. The length of `data` is never checked against the buffer, so a
      size prefix that runs past the end panics. */
  function FromData(dataRaw: Bytes): (r: Outcome<Metadata>)
    ensures |dataRaw| < METADATA_DATA_MIN_LEN ==> r == Err(MetadataDataInvalid)
    ensures r.Err? ==> r.error == MetadataDataInvalid
    ensures r.Ok? ==> DynField(r.value.name) && At(dataRaw, FIXED_LEN, r.value.name)
    ensures r.Ok? ==> DynField(r.value.data) && At(dataRaw, FIXED_LEN + |r.value.name|, r.value.data)
  {
    if |dataRaw| < METADATA_DATA_MIN_LEN then Err(MetadataDataInvalid)
    else
      var name :- CheckedDynField(dataRaw, FIXED_LEN, MetadataDataInvalid);
      var data :- UncheckedDynField(dataRaw, FIXED_LEN + |name|);
      Ok(Metadata(name, data))
  }

  /** Metadata::immutable_equal: only the name is write-once. */
  function ImmutableEqual(a: Metadata, b: Metadata): (r: bool)
    ensures r <==> a.(data := b.data) == b
  {
    a.name == b.name
  }

  /** How decoding ends, by where the buffer stops: too short for the name and the next
      size prefix gives MetadataDataInvalid, too short for the data panics. */
  lemma Outcomes(dataRaw: Bytes)
    requires |dataRaw| >= METADATA_DATA_MIN_LEN
    ensures var nameEnd := SizePrefix(dataRaw[..2]) + DYN_MIN_LEN;
      && (FromData(dataRaw) == Err(MetadataDataInvalid) <==> |dataRaw| < nameEnd + DYN_MIN_LEN)
      && (|dataRaw| >= nameEnd + DYN_MIN_LEN ==>
            (FromData(dataRaw) == Abort <==>
               |dataRaw| < nameEnd + SizePrefix(dataRaw[nameEnd..nameEnd + 2]) + DYN_MIN_LEN))
  {
  }

  /** A buffer whose data prefix declares a byte it does not hold. */
  lemma OverrunExample()
    ensures FromData([0, 0, 0, 1]) == Abort
  {
    Outcomes([0, 0, 0, 1]);
  }

  /** The layout written by an encoder. */
  function Encode(name: Bytes, data: Bytes): (raw: Bytes)
    requires |name| < 0x1_0000 && |data| < 0x1_0000
    ensures |raw| == 2 * DYN_MIN_LEN + |name| + |data|
  {
    EncodeDyn(name) + EncodeDyn(data)
  }

  /** Decoding an encoding gives back both fields (with their prefixes) and ignores what
      follows them. */
  lemma {:induction false} RoundTrip(name: Bytes, data: Bytes, trailing: Bytes)
    requires |name| < 0x1_0000 && |data| < 0x1_0000
    ensures FromData(Encode(name, data) + trailing) == Ok(Metadata(EncodeDyn(name), EncodeDyn(data)))
  {
    var n := EncodeDyn(name);
    var d := EncodeDyn(data);
    var raw := Encode(name, data) + trailing;
    assert raw == n + d + trailing;
    assert raw[..DYN_MIN_LEN] == n[..DYN_MIN_LEN] == BeBytes(|name|, DYN_MIN_LEN);
    assert raw[..|n|] == n;
    assert raw[|n|..|n| + DYN_MIN_LEN] == d[..DYN_MIN_LEN] == BeBytes(|data|, DYN_MIN_LEN);
    assert raw[|n|..|n| + |d|] == d;
  }

  /** Cutting an encoding short is rejected with MetadataDataInvalid until the data's size
      prefix is complete, and panics after that. */
  lemma {:induction false} Truncated(name: Bytes, data: Bytes, k: nat)
    requires |name| < 0x1_0000 && |data| < 0x1_0000
    requires k < |Encode(name, data)|
    ensures FromData(Encode(name, data)[..k]) ==
      if k < |name| + 2 * DYN_MIN_LEN then Err(MetadataDataInvalid) else Abort
  {
    var n := EncodeDyn(name);
    var d := EncodeDyn(data);
    var enc := Encode(name, data);
    var raw := enc[..k];
    assert enc == n + d;
    if k >= METADATA_DATA_MIN_LEN {
      assert raw[..DYN_MIN_LEN] == enc[..DYN_MIN_LEN] == n[..DYN_MIN_LEN];
      SizePrefixOfBeBytes(|name|);
      Outcomes(raw);
      if k >= |n| + DYN_MIN_LEN {
        assert raw[|n|..|n| + DYN_MIN_LEN] == enc[|n|..|n| + DYN_MIN_LEN] == d[..DYN_MIN_LEN];
        SizePrefixOfBeBytes(|data|);
      }
    }
  }

  /** The data field may change freely under immutable_equal. */
  lemma DataIsMutable(m: Metadata, data: Bytes)
    ensures ImmutableEqual(m, m.(data := data))
  {
  }

  /** immutable_equal is an equivalence. */
  lemma ImmutableEqualIsEquivalence(a: Metadata, b: Metadata, c: Metadata)
    ensures ImmutableEqual(a, a)
    ensures ImmutableEqual(a, b) ==> ImmutableEqual(b, a)
    ensures ImmutableEqual(a, b) && ImmutableEqual(b, c) ==> ImmutableEqual(a, c)
  {
  }
}

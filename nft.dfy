/** The NFT cell's data record (script-utils nft.rs):
    `version: u8 | data: <size: u16> + <content>`. */
module NftCell {
  import opened Host
  import opened Errors
  import opened HelperBytes

  const FIXED_LEN: nat := 1
  const NFT_DATA_MIN_LEN: nat := 3
  /** 24 bytes of class identity followed by a 32-byte per-mint digest. */
  const NFT_TYPE_ARGS_LEN: nat := 56

  /** `data` keeps its 2-byte size prefix. */
  datatype Nft = Nft(version: u8, data: Bytes)

  /** Nft::from_data. The length of `data` is never checked against the buffer, so a
      size prefix that runs past the end panics. */
  function FromData(rawData: Bytes): (r: Outcome<Nft>)
    ensures |rawData| < NFT_DATA_MIN_LEN ==> r == Err(NFTDataInvalid)
    ensures |rawData| >= NFT_DATA_MIN_LEN && rawData[0] != 0 ==> r == Err(VersionInvalid)
    ensures r.Err? ==> r.error == NFTDataInvalid || r.error == VersionInvalid
    ensures r.Ok? ==> r.value.version == 0
    ensures r.Ok? ==> DynField(r.value.data) && At(rawData, FIXED_LEN, r.value.data)
  {
    if |rawData| < NFT_DATA_MIN_LEN then Err(NFTDataInvalid)
    else
      var version := rawData[0];
      if version != 0 then Err(VersionInvalid)
      else
        var data :- UncheckedDynField(rawData, FIXED_LEN);
        Ok(Nft(version, data))
  }

  /** The one way decoding panics: a well-versioned buffer whose size prefix runs past its end. */
  lemma AbortIffDataOverruns(rawData: Bytes)
    ensures FromData(rawData) == Abort <==>
      && |rawData| >= NFT_DATA_MIN_LEN
      && rawData[0] == 0
      && |rawData| < FIXED_LEN + SizePrefix(rawData[1..3]) + DYN_MIN_LEN
  {
  }

  /** A buffer whose prefix declares five content bytes but holds none. */
  lemma OverrunExample()
    ensures FromData([0, 0, 5]) == Abort
  {
    AbortIffDataOverruns([0, 0, 5]);
  }

  /** The layout written by an encoder. */
  function Encode(content: Bytes): (raw: Bytes)
    requires |content| < 0x1_0000
    ensures |raw| == FIXED_LEN + DYN_MIN_LEN + |content|
  {
    [0] + EncodeDyn(content)
  }

  /** Decoding an encoding gives back the content (with its prefix) and ignores
      whatever follows it. */
  lemma {:induction false} RoundTrip(content: Bytes, trailing: Bytes)
    requires |content| < 0x1_0000
    ensures FromData(Encode(content) + trailing) == Ok(Nft(0, EncodeDyn(content)))
  {
    var raw := Encode(content) + trailing;
    var field := EncodeDyn(content);
    assert raw[FIXED_LEN..FIXED_LEN + DYN_MIN_LEN] == BeBytes(|content|, DYN_MIN_LEN);
    assert raw[FIXED_LEN..FIXED_LEN + |field|] == field;
  }

  /** Cutting an encoding short is rejected with NFTDataInvalid while the size prefix is
      incomplete, and panics once the prefix is complete but the content is not. */
  lemma {:induction false} Truncated(content: Bytes, k: nat)
    requires |content| < 0x1_0000
    requires k < |Encode(content)|
    ensures FromData(Encode(content)[..k]) ==
      if k < NFT_DATA_MIN_LEN then Err(NFTDataInvalid) else Abort
  {
    var enc := Encode(content);
    var raw := enc[..k];
    if k >= NFT_DATA_MIN_LEN {
      var prefix := BeBytes(|content|, DYN_MIN_LEN);
      assert enc == [0] + prefix + content;
      assert enc[FIXED_LEN..FIXED_LEN + DYN_MIN_LEN] == prefix;
      assert raw[FIXED_LEN..FIXED_LEN + DYN_MIN_LEN] == prefix;
      AbortIffDataOverruns(raw);
    }
  }
}

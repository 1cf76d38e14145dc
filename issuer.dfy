/** The issuer cell's data record (script-utils issuer.rs):
    `version: u8 | class_count: u32 | name: <size: u16> + <content>`.
    The name is checked to fit in the buffer but is not kept. */
module IssuerCell {
  import opened Host
  import opened Errors
  import opened HelperBytes

  const FIXED_LEN: nat := 5
  const ISSUER_DATA_MIN_LEN: nat := 7
  const ISSUER_TYPE_ARGS_LEN: nat := 20

  datatype Issuer = Issuer(version: u8, classCount: u32)

  /** Issuer::from_data. Every slice it takes is in range: it never panics. */
  function FromData(data: Bytes): (r: Outcome<Issuer>)
    ensures |data| < ISSUER_DATA_MIN_LEN ==> r == Err(IssuerDataInvalid)
    ensures |data| >= ISSUER_DATA_MIN_LEN && data[0] != 0 ==> r == Err(VersionInvalid)
    ensures |data| >= ISSUER_DATA_MIN_LEN && data[0] == 0 ==>
      (r == Err(IssuerDataInvalid) <==> |data| < FIXED_LEN + SizePrefix(data[5..7]) + DYN_MIN_LEN)
    ensures r.Err? ==> r.error == IssuerDataInvalid || r.error == VersionInvalid
    ensures !r.Abort?
    ensures r.Ok? ==> r.value.version == 0 && BeBytes(r.value.classCount, 4) == data[1..5]
  {
    if |data| < ISSUER_DATA_MIN_LEN then Err(IssuerDataInvalid)
    else
      var version := data[0];
      if version != 0 then Err(VersionInvalid)
      else
        var classCount := U32FromSlice(data[1..FIXED_LEN]).value;
        var nameLen := ParseDynVecLen(data[FIXED_LEN..FIXED_LEN + DYN_MIN_LEN]).value;
        if |data| < nameLen + FIXED_LEN then Err(IssuerDataInvalid)
        else Ok(Issuer(version, classCount))
  }

  /** The layout written by an encoder. */
  function Encode(classCount: u32, name: Bytes): (data: Bytes)
    requires |name| < 0x1_0000
    ensures |data| == FIXED_LEN + DYN_MIN_LEN + |name|
  {
    [0] + BeBytes(classCount, 4) + EncodeDyn(name)
  }

  /** Decoding an encoding gives back the class count; the name and any trailing bytes
      are dropped. */
  lemma {:induction false} RoundTrip(classCount: u32, name: Bytes, trailing: Bytes)
    requires |name| < 0x1_0000
    ensures FromData(Encode(classCount, name) + trailing) == Ok(Issuer(0, classCount))
  {
    var count := BeBytes(classCount, 4);
    var prefix := BeBytes(|name|, DYN_MIN_LEN);
    var data := Encode(classCount, name) + trailing;
    assert data == [0] + count + prefix + name + trailing;
    assert data[1..FIXED_LEN] == count;
    assert data[FIXED_LEN..FIXED_LEN + DYN_MIN_LEN] == prefix;
    BeBytesOfValue(count);
  }

  /** Cutting an encoding short is always rejected with IssuerDataInvalid. */
  lemma {:induction false} Truncated(classCount: u32, name: Bytes, k: nat)
    requires |name| < 0x1_0000
    requires k < |Encode(classCount, name)|
    ensures FromData(Encode(classCount, name)[..k]) == Err(IssuerDataInvalid)
  {
    var enc := Encode(classCount, name);
    var data := enc[..k];
    if k >= ISSUER_DATA_MIN_LEN {
      var prefix := BeBytes(|name|, DYN_MIN_LEN);
      assert enc == [0] + BeBytes(classCount, 4) + prefix + name;
      assert enc[FIXED_LEN..FIXED_LEN + DYN_MIN_LEN] == prefix;
      assert data[FIXED_LEN..FIXED_LEN + DYN_MIN_LEN] == prefix;
    }
  }
}

/** The class cell's data record (script-utils class.rs):
    `version: u8 | cost: u64 | name | description | meta_data_cell_type_hash`,
    each of the last three a `<size: u16> + <content>` field. */
module ClassCell {
  import opened Host
  import opened Errors
  import opened HelperBytes

  const FIXED_LEN: nat := 9
  /** FIXED_LEN plus the size prefixes of name and description. */
  const CLASS_DATA_MIN_LEN: nat := 13
  /** 20 bytes of issuer identity followed by a 4-byte class id. */
  const CLASS_TYPE_ARGS_LEN: nat := 24

  /** The three dynamic fields keep their 2-byte size prefix. `cost` is in whole CKB. */
  datatype Class = Class(
    version: u8,
    cost: u64,
    name: Bytes,
    description: Bytes,
    metaDataCellTypeHash: Bytes)

  /** Class::from_data. Name and description are checked to leave room for the next size
      prefix; the metadata hash is not checked against the buffer, so a size prefix that
      runs past the end panics. */
  function FromData(data: Bytes): (r: Outcome<Class>)
    ensures |data| < CLASS_DATA_MIN_LEN ==> r == Err(ClassDataInvalid)
    ensures |data| >= CLASS_DATA_MIN_LEN && data[0] != 0 ==> r == Err(VersionInvalid)
    ensures r.Err? ==> r.error == ClassDataInvalid || r.error == VersionInvalid
    ensures r.Ok? ==> r.value.version == 0
  {
    if |data| < CLASS_DATA_MIN_LEN then Err(ClassDataInvalid)
    else
      var version := data[0];
      if version != 0 then Err(VersionInvalid)
      else
        var cost := U64FromSlice(data[1..9]).value;
        var name :- CheckedDynField(data, FIXED_LEN, ClassDataInvalid);
        var description :- CheckedDynField(data, FIXED_LEN + |name|, ClassDataInvalid);
        var meta :- UncheckedDynField(data, FIXED_LEN + |name| + |description|);
        Ok(Class(version, cost, name, description, meta))
  }

  /** A decoded record is laid out in the buffer field by field: the cost in bytes 1..9,
      then each dynamic field, prefix included, right after the previous one. */
  lemma DecodedLayout(data: Bytes)
    requires FromData(data).Ok?
    ensures var c := FromData(data).value;
      && BeBytes(c.cost, 8) == data[1..9]
      && DynField(c.name) && At(data, FIXED_LEN, c.name)
      && DynField(c.description) && At(data, FIXED_LEN + |c.name|, c.description)
      && DynField(c.metaDataCellTypeHash)
      && At(data, FIXED_LEN + |c.name| + |c.description|, c.metaDataCellTypeHash)
  {
  }

  /** Class::immutable_equal: name and description are write-once. */
  function ImmutableEqual(a: Class, b: Class): (r: bool)
    ensures r <==> a.(version := b.version, cost := b.cost, metaDataCellTypeHash := b.metaDataCellTypeHash) == b
  {
    a.name == b.name && a.description == b.description
  }

  /** How decoding a well-versioned buffer ends, by where it stops: too short for name or
      description plus the next size prefix gives ClassDataInvalid, too short for the
      metadata hash panics. */
  lemma Outcomes(data: Bytes)
    requires |data| >= CLASS_DATA_MIN_LEN && data[0] == 0
    ensures var nameEnd := FIXED_LEN + SizePrefix(data[9..11]) + DYN_MIN_LEN;
      && (|data| < nameEnd + DYN_MIN_LEN ==> FromData(data) == Err(ClassDataInvalid))
      && (|data| >= nameEnd + DYN_MIN_LEN ==>
            var descriptionEnd := nameEnd + SizePrefix(data[nameEnd..nameEnd + 2]) + DYN_MIN_LEN;
            && (FromData(data) == Err(ClassDataInvalid) <==> |data| < descriptionEnd + DYN_MIN_LEN)
            && (|data| >= descriptionEnd + DYN_MIN_LEN ==>
                  (FromData(data) == Abort <==>
                     |data| < descriptionEnd + SizePrefix(data[descriptionEnd..descriptionEnd + 2]) + DYN_MIN_LEN)))
  {
  }

  /** The shortest buffer whose size checks pass, with a metadata prefix claiming one
      byte that is not there. */
  lemma OverrunExample()
    ensures FromData([0, 0, 0, 0, 0, 0, 0, 0, 0, 0, 0, 0, 0, 0, 1]) == Abort
  {
    var data: Bytes := [0, 0, 0, 0, 0, 0, 0, 0, 0, 0, 0, 0, 0, 0, 1];
    assert data[9..11] == [0, 0] && data[11..13] == [0, 0] && data[13..15] == [0, 1];
    AbortsWhenMetaOverruns(data, 11, 13);
  }

  /** The converse of FromData's postcondition: data that lays out a version-0 record
      field by field decodes to exactly that record. */
  lemma DecodesLayout(data: Bytes, cost: u64, name: Bytes, description: Bytes, meta: Bytes)
    requires |data| >= 9 && data[0] == 0 && BeBytes(cost, 8) == data[1..9]
    requires DynField(name) && At(data, FIXED_LEN, name)
    requires DynField(description) && At(data, FIXED_LEN + |name|, description)
    requires DynField(meta) && At(data, FIXED_LEN + |name| + |description|, meta)
    ensures FromData(data) == Ok(Class(0, cost, name, description, meta))
  {
    CheckedDynFieldReads(data, FIXED_LEN, name, ClassDataInvalid);
    CheckedDynFieldReads(data, FIXED_LEN + |name|, description, ClassDataInvalid);
    UncheckedDynFieldReads(data, FIXED_LEN + |name| + |description|, meta);
    assert BeValue(data[1..9]) == cost;
  }

  /** The layout written by an encoder. */
  function Encode(cost: u64, name: Bytes, description: Bytes, meta: Bytes): (data: Bytes)
    requires |name| < 0x1_0000 && |description| < 0x1_0000 && |meta| < 0x1_0000
    ensures |data| == FIXED_LEN + 3 * DYN_MIN_LEN + |name| + |description| + |meta|
  {
    assert Pow256(8) == U64_LIMIT;
    [0] + BeBytes(cost, 8) + EncodeDyn(name) + EncodeDyn(description) + EncodeDyn(meta)
  }

  /** Where each field of an encoding sits. */
  lemma EncodeLayout(cost: u64, name: Bytes, description: Bytes, meta: Bytes)
    requires |name| < 0x1_0000 && |description| < 0x1_0000 && |meta| < 0x1_0000
    ensures var data := Encode(cost, name, description, meta);
      var n, d := EncodeDyn(name), EncodeDyn(description);
      && data[0] == 0 && data[1..9] == BeBytes(cost, 8)
      && At(data, FIXED_LEN, n)
      && At(data, FIXED_LEN + |n|, d)
      && At(data, FIXED_LEN + |n| + |d|, EncodeDyn(meta))
  {
    assert Pow256(8) == U64_LIMIT;
    var head := [0] + BeBytes(cost, 8);
    var n, d, m := EncodeDyn(name), EncodeDyn(description), EncodeDyn(meta);
    var data := Encode(cost, name, description, meta);
    assert data == head + n + (d + m);
    AtConcat(head, n, d + m);
    assert data == (head + n) + d + m;
    AtConcat(head + n, d, m);
    assert data == (head + n + d) + m + [];
    AtConcat(head + n + d, m, []);
    assert data[1..9] == head[1..9];
  }

  /** Decoding an encoding gives back every field (dynamic ones with their prefixes) and
      ignores what follows them. */
  lemma RoundTrip(cost: u64, name: Bytes, description: Bytes, meta: Bytes, trailing: Bytes)
    requires |name| < 0x1_0000 && |description| < 0x1_0000 && |meta| < 0x1_0000
    ensures FromData(Encode(cost, name, description, meta) + trailing) ==
      Ok(Class(0, cost, EncodeDyn(name), EncodeDyn(description), EncodeDyn(meta)))
  {
    var enc := Encode(cost, name, description, meta);
    var n, d, m := EncodeDyn(name), EncodeDyn(description), EncodeDyn(meta);
    EncodeLayout(cost, name, description, meta);
    var data := enc + trailing;
    assert data[..|enc|] == enc;
    assert data[1..9] == enc[1..9];
    AtPrefix(data, FIXED_LEN, n, |enc|);
    AtPrefix(data, FIXED_LEN + |n|, d, |enc|);
    AtPrefix(data, FIXED_LEN + |n| + |d|, m, |enc|);
    DecodesLayout(data, cost, n, d, m);
  }

  /** The size prefixes an encoding cut at `k` still holds. */
  lemma TruncatedPrefixes(cost: u64, name: Bytes, description: Bytes, meta: Bytes, k: nat)
    requires |name| < 0x1_0000 && |description| < 0x1_0000 && |meta| < 0x1_0000
    requires CLASS_DATA_MIN_LEN <= k < |Encode(cost, name, description, meta)|
    ensures var data := Encode(cost, name, description, meta)[..k];
      var nameEnd := FIXED_LEN + |name| + DYN_MIN_LEN;
      var descriptionEnd := nameEnd + |description| + DYN_MIN_LEN;
      && data[0] == 0
      && SizePrefix(data[9..11]) == |name|
      && (k >= nameEnd + DYN_MIN_LEN ==> SizePrefix(data[nameEnd..nameEnd + 2]) == |description|)
      && (k >= descriptionEnd + DYN_MIN_LEN ==>
            SizePrefix(data[descriptionEnd..descriptionEnd + 2]) == |meta|)
  {
    var enc := Encode(cost, name, description, meta);
    var n, d, m := EncodeDyn(name), EncodeDyn(description), EncodeDyn(meta);
    EncodeLayout(cost, name, description, meta);
    var data := enc[..k];
    var i := FIXED_LEN;
    AtHead(enc, i, n, DYN_MIN_LEN);
    assert data[i..i + DYN_MIN_LEN] == enc[i..i + DYN_MIN_LEN];
    i := i + |n|;
    if k >= i + DYN_MIN_LEN {
      AtHead(enc, i, d, DYN_MIN_LEN);
      assert data[i..i + DYN_MIN_LEN] == enc[i..i + DYN_MIN_LEN];
      i := i + |d|;
      if k >= i + DYN_MIN_LEN {
        AtHead(enc, i, m, DYN_MIN_LEN);
        assert data[i..i + DYN_MIN_LEN] == enc[i..i + DYN_MIN_LEN];
      }
    }
  }

  /** Decoding panics when every check passes but the metadata hash's prefix overruns. */
  lemma AbortsWhenMetaOverruns(data: Bytes, nameEnd: nat, descriptionEnd: nat)
    requires |data| >= CLASS_DATA_MIN_LEN && data[0] == 0
    requires nameEnd == FIXED_LEN + SizePrefix(data[9..11]) + DYN_MIN_LEN
    requires nameEnd + DYN_MIN_LEN <= |data|
    requires descriptionEnd == nameEnd + SizePrefix(data[nameEnd..nameEnd + 2]) + DYN_MIN_LEN
    requires descriptionEnd + DYN_MIN_LEN <= |data|
    requires |data| < descriptionEnd + SizePrefix(data[descriptionEnd..descriptionEnd + 2]) + DYN_MIN_LEN
    ensures FromData(data) == Abort
  {
    assert CheckedDynField(data, FIXED_LEN, ClassDataInvalid).Ok?;
    var name := CheckedDynField(data, FIXED_LEN, ClassDataInvalid).value;
    assert FIXED_LEN + |name| == nameEnd;
    assert CheckedDynField(data, nameEnd, ClassDataInvalid).Ok?;
    var description := CheckedDynField(data, nameEnd, ClassDataInvalid).value;
    assert FIXED_LEN + |name| + |description| == descriptionEnd;
    assert UncheckedDynField(data, descriptionEnd).Abort?;
    MetaReadAborts(data, name, description);
  }

  /** Once both checked fields are read, a panicking metadata read is a panic of the decoder. */
  lemma MetaReadAborts(data: Bytes, name: Bytes, description: Bytes)
    requires |data| >= CLASS_DATA_MIN_LEN && data[0] == 0
    requires CheckedDynField(data, FIXED_LEN, ClassDataInvalid) == Ok(name)
    requires CheckedDynField(data, FIXED_LEN + |name|, ClassDataInvalid) == Ok(description)
    requires UncheckedDynField(data, FIXED_LEN + |name| + |description|).Abort?
    ensures FromData(data) == Abort
  {
  }

  /** A cut that still holds the three size prefixes panics on the metadata hash. */
  lemma TruncatedInMeta(cost: u64, name: Bytes, description: Bytes, meta: Bytes, k: nat)
    requires |name| < 0x1_0000 && |description| < 0x1_0000 && |meta| < 0x1_0000
    requires FIXED_LEN + 3 * DYN_MIN_LEN + |name| + |description| <= k
    requires k < |Encode(cost, name, description, meta)|
    ensures FromData(Encode(cost, name, description, meta)[..k]) == Abort
  {
    var data := Encode(cost, name, description, meta)[..k];
    TruncatedPrefixes(cost, name, description, meta, k);
    var nameEnd := FIXED_LEN + |name| + DYN_MIN_LEN;
    AbortsWhenMetaOverruns(data, nameEnd, nameEnd + |description| + DYN_MIN_LEN);
  }

  /** A cut before the metadata hash's size prefix is complete is ClassDataInvalid. */
  lemma TruncatedBeforeMeta(cost: u64, name: Bytes, description: Bytes, meta: Bytes, k: nat)
    requires |name| < 0x1_0000 && |description| < 0x1_0000 && |meta| < 0x1_0000
    requires CLASS_DATA_MIN_LEN <= k < FIXED_LEN + 3 * DYN_MIN_LEN + |name| + |description|
    ensures FromData(Encode(cost, name, description, meta)[..k]) == Err(ClassDataInvalid)
  {
    TruncatedPrefixes(cost, name, description, meta, k);
    Outcomes(Encode(cost, name, description, meta)[..k]);
  }

  /** Cutting an encoding short is rejected with ClassDataInvalid until the metadata hash's
      size prefix is complete, and panics after that. */
  lemma Truncated(cost: u64, name: Bytes, description: Bytes, meta: Bytes, k: nat)
    requires |name| < 0x1_0000 && |description| < 0x1_0000 && |meta| < 0x1_0000
    requires k < |Encode(cost, name, description, meta)|
    ensures FromData(Encode(cost, name, description, meta)[..k]) ==
      if k < FIXED_LEN + 3 * DYN_MIN_LEN + |name| + |description| then Err(ClassDataInvalid)
      else Abort
  {
    if k >= FIXED_LEN + 3 * DYN_MIN_LEN + |name| + |description| {
      TruncatedInMeta(cost, name, description, meta, k);
    } else if k >= CLASS_DATA_MIN_LEN {
      TruncatedBeforeMeta(cost, name, description, meta, k);
    }
  }

  /** Version, cost and metadata hash may change freely under immutable_equal. */
  lemma MutableFieldsIgnored(c: Class, version: u8, cost: u64, meta: Bytes)
    ensures ImmutableEqual(c, c.(version := version, cost := cost, metaDataCellTypeHash := meta))
  {
  }

  /** immutable_equal is an equivalence. */
  lemma ImmutableEqualIsEquivalence(a: Class, b: Class, c: Class)
    ensures ImmutableEqual(a, a)
    ensures ImmutableEqual(a, b) ==> ImmutableEqual(b, a)
    ensures ImmutableEqual(a, b) && ImmutableEqual(b, c) ==> ImmutableEqual(a, c)
  {
  }
}

/** The metadata type script (metadata entry.rs). Metadata type args are the first 20 bytes
    of blake2b over the first input's previous output (transaction hash, then the packed
    index), fixed when the metadata cell is created. An update may rewrite the data but not
    the name. Update and destroy are refused when the input's witness carries no lock. */
module MetadataType {
  import opened Host
  import opened Errors
  import opened Helper
  import opened MetadataCell

  /** The metadata cells of a group: those whose type script is exactly the metadata's. */
  function MetadataCellCount(cells: seq<Cell>, metadataType: Script): (n: nat)
    ensures n <= |cells|
    ensures n == 0 <==> forall i :: 0 <= i < |cells| ==> cells[i].typeScript != Some(metadataType)
  {
    CountCellsByType(cells, (t: Script) => t == metadataType)
  }

  /** A count of one names a single cell. */
  lemma MetadataCellUnique(cells: seq<Cell>, metadataType: Script, i: nat, j: nat)
    requires MetadataCellCount(cells, metadataType) == 1
    requires i < |cells| && cells[i].typeScript == Some(metadataType)
    requires j < |cells| && cells[j].typeScript == Some(metadataType)
    ensures i == j
  {
    if i != j {
      CountCellsByTypeAtLeastTwo(cells, (t: Script) => t == metadataType, i, j);
    }
  }

  /** parse_metadata_action: one metadata cell appears (0 in, 1 out), stays (1, 1) or goes (1, 0). */
  function ParseMetadataAction(tx: Transaction, metadataType: Script): (r: Outcome<Action>)
    ensures var ins, outs := MetadataCellCount(tx.inputs, metadataType), MetadataCellCount(tx.outputs, metadataType);
      && (r == Ok(Create) <==> ins == 0 && outs == 1)
      && (r == Ok(Update) <==> ins == 1 && outs == 1)
      && (r == Ok(Destroy) <==> ins == 1 && outs == 0)
      && (r.Ok? || r == Err(MetadataCellsCountError))
  {
    var ins := MetadataCellCount(tx.inputs, metadataType);
    var outs := MetadataCellCount(tx.outputs, metadataType);
    if ins == 0 && outs == 1 then Ok(Create)
    else if ins == 1 && outs == 1 then Ok(Update)
    else if ins == 1 && outs == 0 then Ok(Destroy)
    else Err(MetadataCellsCountError)
  }

  /** load_metadata_data: the data of the group's first cell; any failure is MetadataDataInvalid. */
  function LoadMetadataData(cells: seq<Cell>, metadataType: Script): (r: Outcome<Bytes>)
    ensures r.Ok? || r == Err(MetadataDataInvalid)
    ensures forall i :: FirstOfType(cells, metadataType, i) ==>
      (r.Ok? <==> cells[i].data.Some?) && (r.Ok? ==> r.value == cells[i].data.value)
    ensures (forall i :: 0 <= i < |cells| ==> cells[i].typeScript != Some(metadataType)) ==>
      r == Err(MetadataDataInvalid)
  {
    match LoadGroupCellData(cells, metadataType)
    case None => Err(MetadataDataInvalid)
    case Some(d) => Ok(d)
  }

  /** The metadata record of the group's first cell in `cells` (the load_metadata closure). */
  function LoadMetadata(cells: seq<Cell>, metadataType: Script): (r: Outcome<Metadata>)
    ensures r.Err? ==> r.error == MetadataDataInvalid
    ensures r.Ok? <==>
      && LoadMetadataData(cells, metadataType).Ok?
      && MetadataCell.FromData(LoadMetadataData(cells, metadataType).value).Ok?
    ensures r.Abort? <==>
      && LoadMetadataData(cells, metadataType).Ok?
      && MetadataCell.FromData(LoadMetadataData(cells, metadataType).value).Abort?
  {
    var data :- LoadMetadataData(cells, metadataType);
    MetadataCell.FromData(data)
  }

  /** The args a newly created metadata cell must carry: the first 20 bytes of blake2b over
      the first input's previous transaction hash followed by its packed index. */
  function CreatedIdentity(tx: Transaction, blake2b: Bytes -> Digest, metadataType: Script): (r: bool)
    ensures r ==> tx.firstInput.Some? && |metadataType.args| == METADATA_TYPE_ARGS_LEN
  {
    && tx.firstInput.Some?
    && metadataType.args ==
       blake2b(tx.firstInput.value.txHash + tx.firstInput.value.index)[0..METADATA_TYPE_ARGS_LEN]
  }

  /** handle_creation: the identity check, then the new record must decode. */
  function HandleCreation(tx: Transaction, blake2b: Bytes -> Digest, metadataType: Script): (r: Outcome<()>)
    requires |metadataType.args| == METADATA_TYPE_ARGS_LEN
    ensures r == Ok(()) <==> CreatedIdentity(tx, blake2b, metadataType) && LoadMetadata(tx.outputs, metadataType).Ok?
    ensures tx.firstInput.None? ==> r == Err(IndexOutOfBound)
    ensures tx.firstInput.Some? && !CreatedIdentity(tx, blake2b, metadataType) ==> r == Err(TypeArgsInvalid)
    ensures r.Abort? <==> CreatedIdentity(tx, blake2b, metadataType) && LoadMetadata(tx.outputs, metadataType).Abort?
  {
    if tx.firstInput.None? then Err(IndexOutOfBound)
    else
      var previous := tx.firstInput.value;
      var ret := blake2b(previous.txHash + previous.index);
      if metadataType.args != ret[0..METADATA_TYPE_ARGS_LEN] then Err(TypeArgsInvalid)
      else
        var metadata :- LoadMetadata(tx.outputs, metadataType);
        Ok(())
  }

  /** A creation whose new metadata cell holds an encoded record (with any trailing bytes)
      and whose args commit to the first input is accepted. */
  lemma CreationAcceptsEncoded(tx: Transaction, blake2b: Bytes -> Digest, metadataType: Script,
                               i: nat, name: Bytes, data: Bytes, trailing: Bytes)
    requires |metadataType.args| == METADATA_TYPE_ARGS_LEN && |name| < 0x1_0000 && |data| < 0x1_0000
    requires CreatedIdentity(tx, blake2b, metadataType)
    requires FirstOfType(tx.outputs, metadataType, i)
    requires tx.outputs[i].data == Some(MetadataCell.Encode(name, data) + trailing)
    ensures HandleCreation(tx, blake2b, metadataType) == Ok(())
  {
    MetadataCell.RoundTrip(name, data, trailing);
  }

  /** handle_update: the anyone-can-pay check, then the name may not change. */
  function HandleUpdate(tx: Transaction, metadataType: Script): (r: Outcome<()>)
    ensures r == Ok(()) <==>
      && CheckGroupInputWitnessIsNoneWithType(tx, metadataType) == Ok(false)
      && LoadMetadata(tx.inputs, metadataType).Ok? && LoadMetadata(tx.outputs, metadataType).Ok?
      && LoadMetadata(tx.inputs, metadataType).value.name == LoadMetadata(tx.outputs, metadataType).value.name
    ensures CheckGroupInputWitnessIsNoneWithType(tx, metadataType) == Ok(true) ==>
      r == Err(GroupInputWitnessNoneError)
    ensures
      && CheckGroupInputWitnessIsNoneWithType(tx, metadataType) == Ok(false)
      && LoadMetadata(tx.inputs, metadataType).Ok? && LoadMetadata(tx.outputs, metadataType).Ok?
      && LoadMetadata(tx.inputs, metadataType).value.name != LoadMetadata(tx.outputs, metadataType).value.name
      ==> r == Err(MetadataImmutableFieldsNotSame)
  {
    var witnessIsNone :- CheckGroupInputWitnessIsNoneWithType(tx, metadataType);
    if witnessIsNone then Err(GroupInputWitnessNoneError)
    else
      var inputMetadata :- LoadMetadata(tx.inputs, metadataType);
      var outputMetadata :- LoadMetadata(tx.outputs, metadataType);
      if !MetadataCell.ImmutableEqual(inputMetadata, outputMetadata) then Err(MetadataImmutableFieldsNotSame)
      else Ok(())
  }

  /** An update that keeps the encoded name and rewrites the data is accepted once the
      witness check passes. */
  lemma UpdateAcceptsNewData(tx: Transaction, metadataType: Script, i: nat, j: nat,
                             name: Bytes, oldData: Bytes, newData: Bytes)
    requires |name| < 0x1_0000 && |oldData| < 0x1_0000 && |newData| < 0x1_0000
    requires CheckGroupInputWitnessIsNoneWithType(tx, metadataType) == Ok(false)
    requires FirstOfType(tx.inputs, metadataType, i) && FirstOfType(tx.outputs, metadataType, j)
    requires tx.inputs[i].data == Some(MetadataCell.Encode(name, oldData))
    requires tx.outputs[j].data == Some(MetadataCell.Encode(name, newData))
    ensures HandleUpdate(tx, metadataType) == Ok(())
  {
    MetadataCell.RoundTrip(name, oldData, []);
    MetadataCell.RoundTrip(name, newData, []);
    assert MetadataCell.Encode(name, oldData) + [] == MetadataCell.Encode(name, oldData);
    assert MetadataCell.Encode(name, newData) + [] == MetadataCell.Encode(name, newData);
  }

  /** handle_destroying: only the anyone-can-pay check. */
  function HandleDestroying(tx: Transaction, metadataType: Script): (r: Outcome<()>)
    ensures r == Ok(()) <==> CheckGroupInputWitnessIsNoneWithType(tx, metadataType) == Ok(false)
    ensures r.Ok? || r == Err(GroupInputWitnessNoneError) || r == Err(Encoding)
  {
    var witnessIsNone :- CheckGroupInputWitnessIsNoneWithType(tx, metadataType);
    if witnessIsNone then Err(GroupInputWitnessNoneError) else Ok(())
  }

  /** The script's main: `metadataType` is the running script (load_script). */
  function ScriptMain(tx: Transaction, blake2b: Bytes -> Digest, metadataType: Script): (r: Outcome<()>)
    ensures |metadataType.args| != METADATA_TYPE_ARGS_LEN ==> r == Err(TypeArgsInvalid)
    ensures |metadataType.args| == METADATA_TYPE_ARGS_LEN ==>
      match ParseMetadataAction(tx, metadataType)
      case Ok(Create) => r == HandleCreation(tx, blake2b, metadataType)
      case Ok(Update) => r == HandleUpdate(tx, metadataType)
      case Ok(Destroy) => r == HandleDestroying(tx, metadataType)
      case _ => r == Err(MetadataCellsCountError)
  {
    if |metadataType.args| != METADATA_TYPE_ARGS_LEN then Err(TypeArgsInvalid)
    else
      var action :- ParseMetadataAction(tx, metadataType);
      match action
      case Create => HandleCreation(tx, blake2b, metadataType)
      case Update => HandleUpdate(tx, metadataType)
      case Destroy => HandleDestroying(tx, metadataType)
  }
}

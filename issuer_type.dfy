/** The issuer type script (issuer-type entry.rs). Issuer type args are the first 20 bytes
    of blake2b over the first input's previous output (transaction hash, then the packed
    index), fixed when the issuer cell is created. The class count of an issuer may only
    grow, and an issuer cell can only be destroyed while it counts no class. Update and
    destroy are refused when the input's witness carries no lock. */
module IssuerType {
  import opened Host
  import opened Errors
  import opened Helper
  import opened IssuerCell

  /** The issuer cells of a group: those whose type script is exactly the issuer's. */
  function IssuerCellCount(cells: seq<Cell>, issuerType: Script): (n: nat)
    ensures n <= |cells|
    ensures n == 0 <==> forall i :: 0 <= i < |cells| ==> cells[i].typeScript != Some(issuerType)
  {
    CountCellsByType(cells, (t: Script) => t == issuerType)
  }

  /** A count of one names a single cell. */
  lemma IssuerCellUnique(cells: seq<Cell>, issuerType: Script, i: nat, j: nat)
    requires IssuerCellCount(cells, issuerType) == 1
    requires i < |cells| && cells[i].typeScript == Some(issuerType)
    requires j < |cells| && cells[j].typeScript == Some(issuerType)
    ensures i == j
  {
    if i != j {
      CountCellsByTypeAtLeastTwo(cells, (t: Script) => t == issuerType, i, j);
    }
  }

  /** parse_issuer_action: one issuer cell appears (0 in, 1 out), stays (1, 1) or goes (1, 0). */
  function ParseIssuerAction(tx: Transaction, issuerType: Script): (r: Outcome<Action>)
    ensures var ins, outs := IssuerCellCount(tx.inputs, issuerType), IssuerCellCount(tx.outputs, issuerType);
      && (r == Ok(Create) <==> ins == 0 && outs == 1)
      && (r == Ok(Update) <==> ins == 1 && outs == 1)
      && (r == Ok(Destroy) <==> ins == 1 && outs == 0)
      && (r.Ok? || r == Err(IssuerCellsCountError))
  {
    var ins := IssuerCellCount(tx.inputs, issuerType);
    var outs := IssuerCellCount(tx.outputs, issuerType);
    if ins == 0 && outs == 1 then Ok(Create)
    else if ins == 1 && outs == 1 then Ok(Update)
    else if ins == 1 && outs == 0 then Ok(Destroy)
    else Err(IssuerCellsCountError)
  }

  /** load_issuer_data: the data of the group's first cell; any failure is IssuerDataInvalid. */
  function LoadIssuerData(cells: seq<Cell>, issuerType: Script): (r: Outcome<Bytes>)
    ensures r.Ok? || r == Err(IssuerDataInvalid)
    ensures forall i :: FirstOfType(cells, issuerType, i) ==>
      (r.Ok? <==> cells[i].data.Some?) && (r.Ok? ==> r.value == cells[i].data.value)
    ensures (forall i :: 0 <= i < |cells| ==> cells[i].typeScript != Some(issuerType)) ==>
      r == Err(IssuerDataInvalid)
  {
    match LoadGroupCellData(cells, issuerType)
    case None => Err(IssuerDataInvalid)
    case Some(d) => Ok(d)
  }

  /** The issuer record of the group's first cell in `cells`. */
  function LoadIssuer(cells: seq<Cell>, issuerType: Script): (r: Outcome<Issuer>)
    ensures r.Err? ==> r.error in {IssuerDataInvalid, VersionInvalid}
    ensures !r.Abort?
    ensures r.Ok? <==>
      && LoadIssuerData(cells, issuerType).Ok?
      && IssuerCell.FromData(LoadIssuerData(cells, issuerType).value).Ok?
  {
    var data :- LoadIssuerData(cells, issuerType);
    IssuerCell.FromData(data)
  }

  /** The args a newly created issuer must carry: the first 20 bytes of blake2b over the
      first input's previous transaction hash followed by its packed index. */
  function CreatedIdentity(tx: Transaction, blake2b: Bytes -> Digest, issuerType: Script): (r: bool)
    ensures r ==> tx.firstInput.Some? && |issuerType.args| == ISSUER_TYPE_ARGS_LEN
  {
    && tx.firstInput.Some?
    && issuerType.args == blake2b(tx.firstInput.value.txHash + tx.firstInput.value.index)[0..ISSUER_TYPE_ARGS_LEN]
  }

  /** handle_creation: the identity check, then the new issuer must count no class. */
  function HandleCreation(tx: Transaction, blake2b: Bytes -> Digest, issuerType: Script): (r: Outcome<()>)
    requires |issuerType.args| == ISSUER_TYPE_ARGS_LEN
    ensures r == Ok(()) <==>
      && CreatedIdentity(tx, blake2b, issuerType)
      && LoadIssuer(tx.outputs, issuerType) == Ok(Issuer(0, 0))
    ensures tx.firstInput.None? ==> r == Err(IndexOutOfBound)
    ensures tx.firstInput.Some? && !CreatedIdentity(tx, blake2b, issuerType) ==> r == Err(TypeArgsInvalid)
    ensures
      && CreatedIdentity(tx, blake2b, issuerType)
      && LoadIssuer(tx.outputs, issuerType).Ok? && LoadIssuer(tx.outputs, issuerType).value.classCount != 0
      ==> r == Err(IssuerClassCountError)
    ensures !r.Abort?
  {
    if tx.firstInput.None? then Err(IndexOutOfBound)
    else
      var previous := tx.firstInput.value;
      var ret := blake2b(previous.txHash + previous.index);
      if issuerType.args != ret[0..ISSUER_TYPE_ARGS_LEN] then Err(TypeArgsInvalid)
      else
        var issuer :- LoadIssuer(tx.outputs, issuerType);
        if issuer.classCount != 0 then Err(IssuerClassCountError) else Ok(())
  }

  /** A creation whose new issuer cell holds an encoded record counting no class (with any
      trailing bytes) and whose args commit to the first input is accepted. */
  lemma CreationAcceptsNewIssuer(tx: Transaction, blake2b: Bytes -> Digest, issuerType: Script,
                                 i: nat, name: Bytes, trailing: Bytes)
    requires |issuerType.args| == ISSUER_TYPE_ARGS_LEN && |name| < 0x1_0000
    requires CreatedIdentity(tx, blake2b, issuerType)
    requires FirstOfType(tx.outputs, issuerType, i)
    requires tx.outputs[i].data == Some(IssuerCell.Encode(0, name) + trailing)
    ensures HandleCreation(tx, blake2b, issuerType) == Ok(())
  {
    IssuerCell.RoundTrip(0, name, trailing);
  }

  /** handle_update: the anyone-can-pay check, then the class count may not decrease. */
  function HandleUpdate(tx: Transaction, issuerType: Script): (r: Outcome<()>)
    ensures r == Ok(()) <==>
      && CheckGroupInputWitnessIsNoneWithType(tx, issuerType) == Ok(false)
      && LoadIssuer(tx.inputs, issuerType).Ok? && LoadIssuer(tx.outputs, issuerType).Ok?
      && LoadIssuer(tx.inputs, issuerType).value.classCount <= LoadIssuer(tx.outputs, issuerType).value.classCount
    ensures CheckGroupInputWitnessIsNoneWithType(tx, issuerType) == Ok(true) ==>
      r == Err(GroupInputWitnessNoneError)
    ensures
      && CheckGroupInputWitnessIsNoneWithType(tx, issuerType) == Ok(false)
      && LoadIssuer(tx.inputs, issuerType).Ok? && LoadIssuer(tx.outputs, issuerType).Ok?
      && LoadIssuer(tx.outputs, issuerType).value.classCount < LoadIssuer(tx.inputs, issuerType).value.classCount
      ==> r == Err(IssuerClassCountError)
    ensures !r.Abort?
  {
    var witnessIsNone :- CheckGroupInputWitnessIsNoneWithType(tx, issuerType);
    if witnessIsNone then Err(GroupInputWitnessNoneError)
    else
      var inputIssuer :- LoadIssuer(tx.inputs, issuerType);
      var outputIssuer :- LoadIssuer(tx.outputs, issuerType);
      if outputIssuer.classCount < inputIssuer.classCount then Err(IssuerClassCountError)
      else Ok(())
  }

  /** handle_destroying: the anyone-can-pay check, then the issuer must count no class. */
  function HandleDestroying(tx: Transaction, issuerType: Script): (r: Outcome<()>)
    ensures r == Ok(()) <==>
      && CheckGroupInputWitnessIsNoneWithType(tx, issuerType) == Ok(false)
      && LoadIssuer(tx.inputs, issuerType).Ok?
      && LoadIssuer(tx.inputs, issuerType).value.classCount == 0
    ensures CheckGroupInputWitnessIsNoneWithType(tx, issuerType) == Ok(true) ==>
      r == Err(GroupInputWitnessNoneError)
    ensures
      && CheckGroupInputWitnessIsNoneWithType(tx, issuerType) == Ok(false)
      && LoadIssuer(tx.inputs, issuerType).Ok? && LoadIssuer(tx.inputs, issuerType).value.classCount != 0
      ==> r == Err(IssuerCellCannotDestroyed)
    ensures !r.Abort?
  {
    var witnessIsNone :- CheckGroupInputWitnessIsNoneWithType(tx, issuerType);
    if witnessIsNone then Err(GroupInputWitnessNoneError)
    else
      var inputIssuer :- LoadIssuer(tx.inputs, issuerType);
      if inputIssuer.classCount != 0 then Err(IssuerCellCannotDestroyed) else Ok(())
  }

  /** The script's main: `issuerType` is the running script (load_script). */
  function ScriptMain(tx: Transaction, blake2b: Bytes -> Digest, issuerType: Script): (r: Outcome<()>)
    ensures |issuerType.args| != ISSUER_TYPE_ARGS_LEN ==> r == Err(TypeArgsInvalid)
    ensures |issuerType.args| == ISSUER_TYPE_ARGS_LEN ==>
      match ParseIssuerAction(tx, issuerType)
      case Ok(Create) => r == HandleCreation(tx, blake2b, issuerType)
      case Ok(Update) => r == HandleUpdate(tx, issuerType)
      case Ok(Destroy) => r == HandleDestroying(tx, issuerType)
      case _ => r == Err(IssuerCellsCountError)
    ensures !r.Abort?
  {
    if |issuerType.args| != ISSUER_TYPE_ARGS_LEN then Err(TypeArgsInvalid)
    else
      var action :- ParseIssuerAction(tx, issuerType);
      match action
      case Create => HandleCreation(tx, blake2b, issuerType)
      case Update => HandleUpdate(tx, issuerType)
      case Destroy => HandleDestroying(tx, issuerType)
  }
}

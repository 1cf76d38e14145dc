/** The NFT type script (nft-type entry.rs). NFT type args are 56 bytes: the 24-byte class
    identity (20 bytes of issuer, a 4-byte class id) and a 32-byte digest fixed when the NFT
    is minted. Creation pays the class cost of every NFT minted under the same issuer to the
    payment lock; update and destroy are refused when the input's witness carries no lock. */
module NftType {
  import opened Host
  import opened Errors
  import opened HelperBytes
  import opened Helper
  import ClassCell
  import IssuerCell
  import NftCell
  import NftValidator

  /** Class costs are in CKB; capacities are in shannons. */
  const SHANNONS_PER_CKB: nat := 100_000_000

  /** check_class_type: the class type script the NFT args name. */
  function CheckClassType(cfg: Config, nftArgs: Bytes, t: Script): (r: bool)
    requires |nftArgs| >= ClassCell.CLASS_TYPE_ARGS_LEN
    ensures r <==> t.codeHash == cfg.classTypeCodeHash && t.hashType == TYPE &&
                   t.args == nftArgs[..ClassCell.CLASS_TYPE_ARGS_LEN]
  {
    t == LoadClassType(cfg, nftArgs)
  }

  /** check_nft_type: an NFT of the same class (same code, 56-byte args, same first 24 bytes). */
  function CheckNftType(nftType: Script, t: Script): (r: bool)
    requires |nftType.args| >= ClassCell.CLASS_TYPE_ARGS_LEN
    ensures r ==> |t.args| >= ClassCell.CLASS_TYPE_ARGS_LEN && t.args[..IssuerCell.ISSUER_TYPE_ARGS_LEN] == nftType.args[..IssuerCell.ISSUER_TYPE_ARGS_LEN]
  {
    && t.codeHash == nftType.codeHash
    && t.hashType == nftType.hashType
    && |t.args| == NftCell.NFT_TYPE_ARGS_LEN
    && t.args[0..ClassCell.CLASS_TYPE_ARGS_LEN] == nftType.args[0..ClassCell.CLASS_TYPE_ARGS_LEN]
  }

  /** check_issuer_type: an NFT of the same issuer (same code, 56-byte args, same first 20 bytes). */
  function CheckIssuerType(nftType: Script, t: Script): (r: bool)
    requires |nftType.args| >= IssuerCell.ISSUER_TYPE_ARGS_LEN
    ensures r ==> |t.args| >= ClassCell.CLASS_TYPE_ARGS_LEN
  {
    && t.codeHash == nftType.codeHash
    && t.hashType == nftType.hashType
    && |t.args| == NftCell.NFT_TYPE_ARGS_LEN
    && t.args[0..IssuerCell.ISSUER_TYPE_ARGS_LEN] == nftType.args[0..IssuerCell.ISSUER_TYPE_ARGS_LEN]
  }

  /** A well-formed NFT is of its own class, and an NFT of the same class is of the same issuer. */
  lemma ClassImpliesIssuer(nftType: Script, t: Script)
    requires |nftType.args| == NftCell.NFT_TYPE_ARGS_LEN
    ensures CheckNftType(nftType, nftType) && CheckIssuerType(nftType, nftType)
    ensures CheckNftType(nftType, t) ==> CheckIssuerType(nftType, t)
  {
    if CheckNftType(nftType, t) {
      assert t.args[0..IssuerCell.ISSUER_TYPE_ARGS_LEN] ==
        t.args[0..ClassCell.CLASS_TYPE_ARGS_LEN][0..IssuerCell.ISSUER_TYPE_ARGS_LEN];
      assert nftType.args[0..IssuerCell.ISSUER_TYPE_ARGS_LEN] ==
        nftType.args[0..ClassCell.CLASS_TYPE_ARGS_LEN][0..IssuerCell.ISSUER_TYPE_ARGS_LEN];
    }
  }

  /** get_cell_output_index_by_type: the first output of exactly this type. */
  function GetCellOutputIndexByType(outputs: seq<Cell>, nftType: Script): (r: Outcome<nat>)
    ensures r == Err(Encoding) <==>
      forall i :: 0 <= i < |outputs| ==> outputs[i].typeScript != Some(nftType)
    ensures r.Ok? || r == Err(Encoding)
    ensures r.Ok? ==> FirstOfType(outputs, nftType, r.value)
  {
    match LoadOutputIndexByType(outputs, nftType)
    case None => Err(Encoding)
    case Some(i) => Ok(i)
  }

  /** get_cell_occupied_capacity_by_type: the occupied capacity of the first output of exactly
      this type; `unwrap` panics when there is none. */
  function GetCellOccupiedCapacityByType(outputs: seq<Cell>, nftType: Script): (r: Outcome<u64>)
    ensures r.Abort? <==> forall i :: 0 <= i < |outputs| ==> outputs[i].typeScript != Some(nftType)
    ensures !r.Err?
    ensures forall i :: FirstOfType(outputs, nftType, i) ==> r == Ok(outputs[i].occupiedCapacity)
  {
    match LoadOutputIndexByType(outputs, nftType)
    case None => Abort
    case Some(i) =>
      assert FirstOfType(outputs, nftType, i);
      assert forall other :: FirstOfType(outputs, nftType, other) ==> other == i;
      Ok(outputs[i].occupiedCapacity)
  }

  /** `Option::unwrap`. */
  function Unwrap<T>(o: Option<T>): (r: Outcome<T>)
    ensures r.Abort? <==> o.None?
    ensures o.Some? ==> r == Ok(o.value)
  {
    if o.Some? then Ok(o.value) else Abort
  }

  /** load_nft_data: the data of the group's first cell; any failure is NFTDataInvalid. */
  function LoadNftData(cells: seq<Cell>, nftType: Script): (r: Outcome<Bytes>)
    ensures r.Ok? || r == Err(NFTDataInvalid)
    ensures forall i :: FirstOfType(cells, nftType, i) ==>
      (r.Ok? <==> cells[i].data.Some?) && (r.Ok? ==> r.value == cells[i].data.value)
    ensures (forall i :: 0 <= i < |cells| ==> cells[i].typeScript != Some(nftType)) ==>
      r == Err(NFTDataInvalid)
  {
    match LoadGroupCellData(cells, nftType)
    case None => Err(NFTDataInvalid)
    case Some(d) => Ok(d)
  }

  /** The number of cells of the NFT's class in a group. */
  function ClassNftCount(cells: seq<Cell>, nftType: Script): (n: nat)
    requires |nftType.args| >= ClassCell.CLASS_TYPE_ARGS_LEN
    ensures n <= |cells|
    ensures n == 0 <==>
      forall i :: 0 <= i < |cells| ==>
        cells[i].typeScript.None? || !CheckNftType(nftType, cells[i].typeScript.value)
  {
    CountCellsByType(cells, (t: Script) => CheckNftType(nftType, t))
  }

  /** parse_nft_action: NFTs are counted by class, not by exact type script. */
  function ParseNftAction(tx: Transaction, nftType: Script): (r: Outcome<Action>)
    requires |nftType.args| >= ClassCell.CLASS_TYPE_ARGS_LEN
    ensures var ins, outs := ClassNftCount(tx.inputs, nftType), ClassNftCount(tx.outputs, nftType);
      && (r == Ok(Create) <==> ins == 0)
      && (r == Ok(Destroy) <==> ins == 1 && outs == 0)
      && (r == Ok(Update) <==> ins != 0 && ins == outs)
      && (r.Ok? || r == Err(NFTCellsCountError))
  {
    var ins := ClassNftCount(tx.inputs, nftType);
    if ins == 0 then Ok(Create)
    else
      var outs := ClassNftCount(tx.outputs, nftType);
      if ins == 1 && outs == 0 then Ok(Destroy)
      else if ins == outs then Ok(Update)
      else Err(NFTCellsCountError)
  }

  /** A transaction spending no NFT of this class is a creation, and one spending this very
      NFT is not. */
  lemma CreateIffNoClassInput(tx: Transaction, nftType: Script, i: nat)
    requires |nftType.args| == NftCell.NFT_TYPE_ARGS_LEN
    requires i < |tx.inputs| && tx.inputs[i].typeScript == Some(nftType)
    ensures ParseNftAction(tx, nftType) != Ok(Create)
  {
    ClassImpliesIssuer(nftType, nftType);
  }

  /** The outputs counted by the minting loop: NFTs of the same issuer. */
  predicate MintedOutput(nftType: Script, c: Cell)
    requires |nftType.args| >= IssuerCell.ISSUER_TYPE_ARGS_LEN
  {
    ParseTypeOpt(c.typeScript, (t: Script) => CheckIssuerType(nftType, t))
  }

  /** How many class cell deps the NFT args name. */
  function ClassDepCount(cfg: Config, tx: Transaction, nftArgs: Bytes): (n: nat)
    requires |nftArgs| >= ClassCell.CLASS_TYPE_ARGS_LEN
    ensures n <= |tx.cellDeps|
    ensures n == 0 <==>
      forall i :: 0 <= i < |tx.cellDeps| ==> tx.cellDeps[i].typeScript != Some(LoadClassType(cfg, nftArgs))
  {
    CountCellsByType(tx.cellDeps, (t: Script) => CheckClassType(cfg, nftArgs, t))
  }

  /** The data of the first class cell dep the NFT args name; None when there is none. */
  function ClassDepData(cfg: Config, tx: Transaction, nftArgs: Bytes): (r: Option<Bytes>)
    requires |nftArgs| >= ClassCell.CLASS_TYPE_ARGS_LEN
    ensures r.None? <==> ClassDepCount(cfg, tx, nftArgs) == 0
  {
    LoadCellDataByType(tx.cellDeps, (t: Script) => CheckClassType(cfg, nftArgs, t))
  }

  /** The class an output NFT is minted under, when exactly one class cell dep names it. */
  function ClassDepOf(cfg: Config, tx: Transaction, nftArgs: Bytes): (r: Outcome<ClassCell.Class>)
    requires |nftArgs| >= ClassCell.CLASS_TYPE_ARGS_LEN
    ensures ClassDepCount(cfg, tx, nftArgs) != 1 ==> r == Err(ClassCellsCountError)
    ensures r.Ok? ==> ClassDepCount(cfg, tx, nftArgs) == 1 && r.value.version == 0
    ensures r.Err? ==> r.error in {ClassCellsCountError, ClassDataInvalid, VersionInvalid}
  {
    if ClassDepCount(cfg, tx, nftArgs) != 1 then Err(ClassCellsCountError)
    else ClassCell.FromData(ClassDepData(cfg, tx, nftArgs).value)
  }

  /** The running totals of the minting loop, in shannons. */
  datatype Totals = Totals(totalCost: u64, mintedOccupied: u64)

  /** What one output adds to the totals, as unbounded numbers: the class cost in shannons
      and an occupied capacity. */
  datatype Mint = Mint(cost: nat, occupied: nat)

  /** The body of the minting loop for output `i`: nothing unless it is an NFT of the issuer;
      otherwise its class must resolve through exactly one class cell dep, and it adds that
      class's cost and the occupied capacity of the first output of the same type. */
  function MintAt(cfg: Config, tx: Transaction, nftType: Script, i: nat): (r: Outcome<Mint>)
    requires |nftType.args| == NftCell.NFT_TYPE_ARGS_LEN && i < |tx.outputs|
    ensures !MintedOutput(nftType, tx.outputs[i]) ==> r == Ok(Mint(0, 0))
    ensures MintedOutput(nftType, tx.outputs[i]) ==>
      var t := tx.outputs[i].typeScript.value;
      && (r.Ok? <==> ClassDepOf(cfg, tx, t.args).Ok?)
      && (ClassDepCount(cfg, tx, t.args) != 1 ==> r == Err(ClassCellsCountError))
      && (r.Ok? ==> r.value.cost == ClassDepOf(cfg, tx, t.args).value.cost * SHANNONS_PER_CKB)
      && (forall j :: FirstOfType(tx.outputs, t, j) ==>
            r.Ok? ==> r.value.occupied == tx.outputs[j].occupiedCapacity)
    ensures r.Err? ==> r.error in {ClassCellsCountError, ClassDataInvalid, VersionInvalid}
  {
    var c := tx.outputs[i];
    if !MintedOutput(nftType, c) then Ok(Mint(0, 0))
    else
      var t := c.typeScript.value;
      var classDep := ClassDepOf(cfg, tx, t.args);
      if !classDep.Ok? then classDep.PropagateFailure()
      else
        assert tx.outputs[i].typeScript == Some(t);
        Ok(Mint(classDep.value.cost * SHANNONS_PER_CKB, GetCellOccupiedCapacityByType(tx.outputs, t).value))
  }

  /** The loop body for each of the first `k` outputs, in order. */
  function MintsUpTo(cfg: Config, tx: Transaction, nftType: Script, k: nat): (ms: seq<Outcome<Mint>>)
    requires |nftType.args| == NftCell.NFT_TYPE_ARGS_LEN && k <= |tx.outputs|
    ensures |ms| == k
  {
    if k == 0 then [] else MintsUpTo(cfg, tx, nftType, k - 1) + [MintAt(cfg, tx, nftType, k - 1)]
  }

  /** The `i`-th turn listed is the loop body for output `i`. */
  lemma {:induction false} MintsUpToAt(cfg: Config, tx: Transaction, nftType: Script, k: nat, i: nat)
    requires |nftType.args| == NftCell.NFT_TYPE_ARGS_LEN && i < k <= |tx.outputs|
    ensures MintsUpTo(cfg, tx, nftType, k)[i] == MintAt(cfg, tx, nftType, i)
  {
    if i < k - 1 {
      MintsUpToAt(cfg, tx, nftType, k - 1, i);
    }
  }

  /** The loop body for every output, in order. */
  function Mints(cfg: Config, tx: Transaction, nftType: Script): (ms: seq<Outcome<Mint>>)
    requires |nftType.args| == NftCell.NFT_TYPE_ARGS_LEN
    ensures |ms| == |tx.outputs|
  {
    MintsUpTo(cfg, tx, nftType, |tx.outputs|)
  }

  /** The two u64 additions of the loop; either one panics on overflow (the cost conversion
      `cost * 100000000` overflows only when the first addition does too). */
  function AddMint(acc: Totals, m: Mint): (r: Outcome<Totals>)
    ensures r.Ok? <==> acc.totalCost + m.cost < U64_LIMIT && acc.mintedOccupied + m.occupied < U64_LIMIT
    ensures r.Ok? ==> r.value == Totals(acc.totalCost + m.cost, acc.mintedOccupied + m.occupied)
    ensures !r.Err?
  {
    if acc.totalCost + m.cost >= U64_LIMIT || acc.mintedOccupied + m.occupied >= U64_LIMIT then Abort
    else Ok(Totals(acc.totalCost + m.cost, acc.mintedOccupied + m.occupied))
  }

  /** The minting loop as a left fold: the first failing turn ends it. */
  function FoldMints(ms: seq<Outcome<Mint>>): (r: Outcome<Totals>)
    ensures r.Err? ==> Err(r.error) in ms
  {
    if |ms| == 0 then Ok(Totals(0, 0))
    else
      var prefix := FoldMints(ms[..|ms| - 1]);
      var m := ms[|ms| - 1];
      if !prefix.Ok? then
        assert prefix.Err? ==> Err(prefix.error) in ms;
        prefix
      else if !m.Ok? then m.PropagateFailure()
      else AddMint(prefix.value, m.value)
  }

  /** The exact sum of the costs in `ms` (failed turns count nothing). */
  ghost function SumCost(ms: seq<Outcome<Mint>>): nat {
    if |ms| == 0 then 0
    else SumCost(ms[..|ms| - 1]) + (if ms[|ms| - 1].Ok? then ms[|ms| - 1].value.cost else 0)
  }

  /** The exact sum of the occupied capacities in `ms`. */
  ghost function SumOccupied(ms: seq<Outcome<Mint>>): nat {
    if |ms| == 0 then 0
    else SumOccupied(ms[..|ms| - 1]) + (if ms[|ms| - 1].Ok? then ms[|ms| - 1].value.occupied else 0)
  }

  ghost predicate AllOk(ms: seq<Outcome<Mint>>) {
    forall i :: 0 <= i < |ms| ==> ms[i].Ok?
  }

  /** The u64 fold computes the exact sums: it succeeds exactly when every turn succeeds and
      neither sum reaches 2^64, and then its totals are those sums. */
  lemma {:induction false} FoldMintsIsExact(ms: seq<Outcome<Mint>>)
    ensures FoldMints(ms).Ok? <==> AllOk(ms) && SumCost(ms) < U64_LIMIT && SumOccupied(ms) < U64_LIMIT
    ensures FoldMints(ms).Ok? ==>
      FoldMints(ms).value.totalCost == SumCost(ms) && FoldMints(ms).value.mintedOccupied == SumOccupied(ms)
  {
    if |ms| > 0 {
      var init := ms[..|ms| - 1];
      FoldMintsIsExact(init);
      assert AllOk(ms) <==> AllOk(init) && ms[|ms| - 1].Ok? by {
        assert forall i :: 0 <= i < |init| ==> init[i] == ms[i];
      }
    }
  }

  /** Once a turn of the fold fails, the fold's outcome is that failure. */
  lemma {:induction false} FoldMintsFailurePersists(ms: seq<Outcome<Mint>>, k: nat)
    requires k <= |ms| && !FoldMints(ms[..k]).Ok?
    ensures FoldMints(ms) == FoldMints(ms[..k])
  {
    if k < |ms| {
      var init := ms[..|ms| - 1];
      assert init[..k] == ms[..k];
      FoldMintsFailurePersists(init, k);
    } else {
      assert ms[..k] == ms;
    }
  }

  /** The minting loop of handle_creation over all outputs. */
  function MintTally(cfg: Config, tx: Transaction, nftType: Script): (r: Outcome<Totals>)
    requires |nftType.args| == NftCell.NFT_TYPE_ARGS_LEN
    ensures r.Err? ==> r.error in {ClassCellsCountError, ClassDataInvalid, VersionInvalid}
  {
    var ms := Mints(cfg, tx, nftType);
    var r := FoldMints(ms);
    if r.Err? then
      var i :| 0 <= i < |ms| && ms[i] == Err(r.error);
      MintsUpToAt(cfg, tx, nftType, |tx.outputs|, i);
      r
    else r
  }

  /** The exact total class cost of the NFTs minted under the issuer, in shannons. */
  ghost function MintedCost(cfg: Config, tx: Transaction, nftType: Script): nat
    requires |nftType.args| == NftCell.NFT_TYPE_ARGS_LEN
  {
    SumCost(Mints(cfg, tx, nftType))
  }

  /** The exact total occupied capacity counted for those NFTs. */
  ghost function MintedOccupied(cfg: Config, tx: Transaction, nftType: Script): nat
    requires |nftType.args| == NftCell.NFT_TYPE_ARGS_LEN
  {
    SumOccupied(Mints(cfg, tx, nftType))
  }

  /** The loop succeeds exactly when every NFT of the issuer in the outputs has its class
      resolve and neither exact total reaches 2^64; then it returns those totals. */
  lemma MintTallyIsExactSum(cfg: Config, tx: Transaction, nftType: Script)
    requires |nftType.args| == NftCell.NFT_TYPE_ARGS_LEN
    ensures MintTally(cfg, tx, nftType).Ok? <==>
      && (forall i :: 0 <= i < |tx.outputs| && MintedOutput(nftType, tx.outputs[i]) ==>
            ClassDepOf(cfg, tx, tx.outputs[i].typeScript.value.args).Ok?)
      && MintedCost(cfg, tx, nftType) < U64_LIMIT
      && MintedOccupied(cfg, tx, nftType) < U64_LIMIT
    ensures MintTally(cfg, tx, nftType).Ok? ==>
      && MintTally(cfg, tx, nftType).value.totalCost == MintedCost(cfg, tx, nftType)
      && MintTally(cfg, tx, nftType).value.mintedOccupied == MintedOccupied(cfg, tx, nftType)
  {
    var ms := Mints(cfg, tx, nftType);
    FoldMintsIsExact(ms);
    forall i | 0 <= i < |ms|
      ensures ms[i].Ok? <==>
        (MintedOutput(nftType, tx.outputs[i]) ==> ClassDepOf(cfg, tx, tx.outputs[i].typeScript.value.args).Ok?)
    {
      MintsUpToAt(cfg, tx, nftType, |tx.outputs|, i);
    }
  }

  /** The loop body of handle_creation for output `i`, as the `i`-th turn of the fold. */
  method MintTurn(cfg: Config, tx: Transaction, nftType: Script, i: nat) returns (m: Outcome<Mint>)
    requires |nftType.args| == NftCell.NFT_TYPE_ARGS_LEN && i < |tx.outputs|
    ensures m == Mints(cfg, tx, nftType)[i]
  {
    MintsUpToAt(cfg, tx, nftType, |tx.outputs|, i);
    var c := tx.outputs[i];
    if !MintedOutput(nftType, c) {
      return Ok(Mint(0, 0));
    }
    var outputNftType := c.typeScript.value;
    var nftArgs := outputNftType.args;
    if ClassDepCount(cfg, tx, nftArgs) != 1 {
      return Err(ClassCellsCountError);
    }
    var classDep := ClassCell.FromData(ClassDepData(cfg, tx, nftArgs).value);
    if !classDep.Ok? {
      return classDep.PropagateFailure();
    }
    var cost := classDep.value.cost * SHANNONS_PER_CKB;
    assert tx.outputs[i].typeScript == Some(outputNftType);
    var occupied := GetCellOccupiedCapacityByType(tx.outputs, outputNftType).value;
    return Ok(Mint(cost, occupied));
  }

  /** The minting loop of handle_creation, accumulating the two u64 totals in place. */
  method TallyMintedOutputs(cfg: Config, tx: Transaction, nftType: Script) returns (r: Outcome<Totals>)
    requires |nftType.args| == NftCell.NFT_TYPE_ARGS_LEN
    ensures r == MintTally(cfg, tx, nftType)
  {
    ghost var ms := Mints(cfg, tx, nftType);
    var totalCost: u64 := 0;
    var mintedOccupied: u64 := 0;
    var i := 0;
    while i < |tx.outputs|
      invariant 0 <= i <= |tx.outputs|
      invariant FoldMints(ms[..i]) == Ok(Totals(totalCost, mintedOccupied))
    {
      assert ms[..i + 1][..i] == ms[..i];
      var m := MintTurn(cfg, tx, nftType, i);
      if !m.Ok? {
        FoldMintsFailurePersists(ms, i + 1);
        return m.PropagateFailure();
      }
      if totalCost + m.value.cost >= U64_LIMIT || mintedOccupied + m.value.occupied >= U64_LIMIT {
        FoldMintsFailurePersists(ms, i + 1);
        return Abort;
      }
      totalCost := totalCost + m.value.cost;
      mintedOccupied := mintedOccupied + m.value.occupied;
      i := i + 1;
    }
    assert ms[..i] == ms;
    return Ok(Totals(totalCost, mintedOccupied));
  }

  /** The identity check of handle_creation: the digest in the args must be blake2b of the
      first input's previous transaction hash and the little-endian index of the first
      output of this type. */
  function CheckCreatedIdentity(tx: Transaction, blake2b: Bytes -> Digest, nftType: Script)
    : (r: Outcome<nat>)
    requires |nftType.args| == NftCell.NFT_TYPE_ARGS_LEN
    ensures tx.firstInput.None? ==> r == Err(IndexOutOfBound)
    ensures r.Ok? ==>
      && tx.firstInput.Some?
      && FirstOfType(tx.outputs, nftType, r.value)
      && nftType.args[ClassCell.CLASS_TYPE_ARGS_LEN..NftCell.NFT_TYPE_ARGS_LEN] ==
         blake2b(tx.firstInput.value.txHash + UsizeLeBytes(r.value))
    ensures forall index :: tx.firstInput.Some? && FirstOfType(tx.outputs, nftType, index) ==>
      (r.Ok? <==> nftType.args[ClassCell.CLASS_TYPE_ARGS_LEN..NftCell.NFT_TYPE_ARGS_LEN] ==
                  blake2b(tx.firstInput.value.txHash + UsizeLeBytes(index)))
    ensures r.Err? ==> r.error in {IndexOutOfBound, Encoding, TypeArgsInvalid}
    ensures !r.Abort?
  {
    if tx.firstInput.None? then Err(IndexOutOfBound)
    else
      var previous := tx.firstInput.value;
      var outputIndex :- GetCellOutputIndexByType(tx.outputs, nftType);
      var ret := blake2b(previous.txHash + UsizeLeBytes(outputIndex));
      if nftType.args[ClassCell.CLASS_TYPE_ARGS_LEN..NftCell.NFT_TYPE_ARGS_LEN] != ret then
        Err(TypeArgsInvalid)
      else Ok(outputIndex)
  }

  /** The version check of handle_creation: the NFT in the group's first output against the
      first class cell dep the args name; a missing class cell dep panics. Both decoders
      accept version 0 only, so the versions never differ. */
  function CheckVersionWithClass(cfg: Config, tx: Transaction, nftType: Script): (r: Outcome<()>)
    requires |nftType.args| == NftCell.NFT_TYPE_ARGS_LEN
    ensures r != Err(NFTVersionNotSameWithClass)
    ensures r.Ok? <==>
      && LoadNftData(tx.outputs, nftType).Ok?
      && NftCell.FromData(LoadNftData(tx.outputs, nftType).value).Ok?
      && ClassDepData(cfg, tx, nftType.args).Some?
      && ClassCell.FromData(ClassDepData(cfg, tx, nftType.args).value).Ok?
    ensures r.Abort? <==>
      || (LoadNftData(tx.outputs, nftType).Ok? &&
          NftCell.FromData(LoadNftData(tx.outputs, nftType).value).Abort?)
      || (LoadNftData(tx.outputs, nftType).Ok? &&
          NftCell.FromData(LoadNftData(tx.outputs, nftType).value).Ok? &&
          (|| ClassDepData(cfg, tx, nftType.args).None?
           || ClassCell.FromData(ClassDepData(cfg, tx, nftType.args).value).Abort?))
  {
    var nftData :- LoadNftData(tx.outputs, nftType);
    var nft :- NftCell.FromData(nftData);
    var classData :- Unwrap(ClassDepData(cfg, tx, nftType.args));
    var classRecord :- ClassCell.FromData(classData);
    if classRecord.version != nft.version then Err(NFTVersionNotSameWithClass) else Ok(())
  }

  /** The payment check of handle_creation. Subtracting the minted capacity from the total
      cost panics when it underflows. */
  function CheckPayment(cfg: Config, outputs: seq<Cell>, totals: Totals): (r: Outcome<()>)
    ensures var payment := LoadPaymentCellCapacity(cfg, outputs);
      r.Ok? <==>
        payment.Ok? && totals.mintedOccupied <= totals.totalCost <= payment.value + totals.mintedOccupied
    ensures var payment := LoadPaymentCellCapacity(cfg, outputs);
      r.Abort? <==> payment.Ok? && totals.totalCost < totals.mintedOccupied
    ensures r.Err? ==> r.error == InvalidPaymentLockScript || r.error == PaymentNotEnough
  {
    var payment :- LoadPaymentCellCapacity(cfg, outputs);
    if totals.totalCost < totals.mintedOccupied then Abort
    else if payment < totals.totalCost - totals.mintedOccupied then Err(PaymentNotEnough)
    else Ok(())
  }

  /** handle_creation, as a function of the transaction. */
  function CreationOutcome(cfg: Config, tx: Transaction, blake2b: Bytes -> Digest, nftType: Script)
    : (r: Outcome<()>)
    requires |nftType.args| == NftCell.NFT_TYPE_ARGS_LEN
    ensures r != Err(NFTVersionNotSameWithClass)
  {
    var outputIndex :- CheckCreatedIdentity(tx, blake2b, nftType);
    var versionsAgree :- CheckVersionWithClass(cfg, tx, nftType);
    var totals :- MintTally(cfg, tx, nftType);
    CheckPayment(cfg, tx.outputs, totals)
  }

  /** handle_creation. */
  method HandleCreation(cfg: Config, tx: Transaction, blake2b: Bytes -> Digest, nftType: Script)
    returns (r: Outcome<()>)
    requires |nftType.args| == NftCell.NFT_TYPE_ARGS_LEN
    ensures r == CreationOutcome(cfg, tx, blake2b, nftType)
  {
    var outputIndex :- CheckCreatedIdentity(tx, blake2b, nftType);
    var versionsAgree :- CheckVersionWithClass(cfg, tx, nftType);
    var totals :- TallyMintedOutputs(cfg, tx, nftType);
    r := CheckPayment(cfg, tx.outputs, totals);
  }

  /** What an accepted creation guarantees: the NFT's digest commits to the first input's
      transaction and the NFT's output index, every NFT of the issuer in the outputs has
      exactly one class cell dep, and the payment output covers the total class cost beyond
      the capacity those NFTs occupy. */
  lemma CreationAccepted(cfg: Config, tx: Transaction, blake2b: Bytes -> Digest, nftType: Script)
    requires |nftType.args| == NftCell.NFT_TYPE_ARGS_LEN
    requires CreationOutcome(cfg, tx, blake2b, nftType) == Ok(())
    ensures tx.firstInput.Some?
    ensures exists index ::
      && FirstOfType(tx.outputs, nftType, index)
      && nftType.args[ClassCell.CLASS_TYPE_ARGS_LEN..NftCell.NFT_TYPE_ARGS_LEN] ==
         blake2b(tx.firstInput.value.txHash + UsizeLeBytes(index))
    ensures forall i :: 0 <= i < |tx.outputs| && MintedOutput(nftType, tx.outputs[i]) ==>
      ClassDepCount(cfg, tx, tx.outputs[i].typeScript.value.args) == 1
    ensures LoadPaymentCellCapacity(cfg, tx.outputs).Ok?
    ensures
      MintedOccupied(cfg, tx, nftType) <= MintedCost(cfg, tx, nftType) <=
        LoadPaymentCellCapacity(cfg, tx.outputs).value + MintedOccupied(cfg, tx, nftType)
  {
    var index := CheckCreatedIdentity(tx, blake2b, nftType).value;
    assert FirstOfType(tx.outputs, nftType, index);
    MintTallyIsExactSum(cfg, tx, nftType);
  }

  /** The converse of CreationAccepted: a committed digest, an NFT record and a class record
      that decode, a decodable single class cell dep for every minted NFT, sums that fit in
      u64 and a covering payment make the creation succeed. */
  lemma CreationAcceptedWhen(cfg: Config, tx: Transaction, blake2b: Bytes -> Digest, nftType: Script,
                             index: nat)
    requires |nftType.args| == NftCell.NFT_TYPE_ARGS_LEN
    requires tx.firstInput.Some? && FirstOfType(tx.outputs, nftType, index)
    requires nftType.args[ClassCell.CLASS_TYPE_ARGS_LEN..NftCell.NFT_TYPE_ARGS_LEN] ==
             blake2b(tx.firstInput.value.txHash + UsizeLeBytes(index))
    requires LoadNftData(tx.outputs, nftType).Ok?
    requires NftCell.FromData(LoadNftData(tx.outputs, nftType).value).Ok?
    requires ClassDepData(cfg, tx, nftType.args).Some?
    requires ClassCell.FromData(ClassDepData(cfg, tx, nftType.args).value).Ok?
    requires forall i :: 0 <= i < |tx.outputs| && MintedOutput(nftType, tx.outputs[i]) ==>
      ClassDepOf(cfg, tx, tx.outputs[i].typeScript.value.args).Ok?
    requires MintedCost(cfg, tx, nftType) < U64_LIMIT && MintedOccupied(cfg, tx, nftType) < U64_LIMIT
    requires LoadPaymentCellCapacity(cfg, tx.outputs).Ok?
    requires MintedOccupied(cfg, tx, nftType) <= MintedCost(cfg, tx, nftType) <=
             LoadPaymentCellCapacity(cfg, tx.outputs).value + MintedOccupied(cfg, tx, nftType)
    ensures CreationOutcome(cfg, tx, blake2b, nftType) == Ok(())
  {
    var identity := CheckCreatedIdentity(tx, blake2b, nftType);
    assert identity.Ok?;
    var versions := CheckVersionWithClass(cfg, tx, nftType);
    assert versions.Ok?;
    MintTallyIsExactSum(cfg, tx, nftType);
    var tally := MintTally(cfg, tx, nftType);
    assert tally.Ok?;
    var payment := CheckPayment(cfg, tx.outputs, tally.value);
    assert payment.Ok?;
    assert CreationOutcome(cfg, tx, blake2b, nftType) == payment;
  }

  /** handle_update: the anyone-can-pay check, then the first group input and output must
      hold the same NFT record. */
  function HandleUpdate(tx: Transaction, nftType: Script): (r: Outcome<()>)
    ensures r == Ok(()) <==>
      && CheckGroupInputWitnessIsNoneWithType(tx, nftType) == Ok(false)
      && LoadNftData(tx.inputs, nftType).Ok? && LoadNftData(tx.outputs, nftType).Ok?
      && NftCell.FromData(LoadNftData(tx.inputs, nftType).value).Ok?
      && NftCell.FromData(LoadNftData(tx.inputs, nftType).value) ==
         NftCell.FromData(LoadNftData(tx.outputs, nftType).value)
    ensures CheckGroupInputWitnessIsNoneWithType(tx, nftType) == Ok(true) ==>
      r == Err(GroupInputWitnessNoneError)
  {
    var witnessIsNone :- CheckGroupInputWitnessIsNoneWithType(tx, nftType);
    if witnessIsNone then Err(GroupInputWitnessNoneError)
    else
      var inputData :- LoadNftData(tx.inputs, nftType);
      var outputData :- LoadNftData(tx.outputs, nftType);
      var input :- NftCell.FromData(inputData);
      var output :- NftCell.FromData(outputData);
      NftValidator.AcceptsExactlyUnchanged(input, output);
      NftValidator.ValidateImmutableNftFields(input, output)
  }

  /** handle_destroying: only the anyone-can-pay check. */
  function HandleDestroying(tx: Transaction, nftType: Script): (r: Outcome<()>)
    ensures r == Ok(()) <==> CheckGroupInputWitnessIsNoneWithType(tx, nftType) == Ok(false)
    ensures r.Ok? || r == Err(GroupInputWitnessNoneError) || r == Err(Encoding)
  {
    var witnessIsNone :- CheckGroupInputWitnessIsNoneWithType(tx, nftType);
    if witnessIsNone then Err(GroupInputWitnessNoneError) else Ok(())
  }

  /** The script's main: `nftType` is the running script (load_script). */
  function ScriptMain(cfg: Config, tx: Transaction, blake2b: Bytes -> Digest, nftType: Script)
    : (r: Outcome<()>)
    ensures |nftType.args| != NftCell.NFT_TYPE_ARGS_LEN ==> r == Err(TypeArgsInvalid)
    ensures |nftType.args| == NftCell.NFT_TYPE_ARGS_LEN ==>
      match ParseNftAction(tx, nftType)
      case Ok(Create) => r == CreationOutcome(cfg, tx, blake2b, nftType)
      case Ok(Update) => r == HandleUpdate(tx, nftType)
      case Ok(Destroy) => r == HandleDestroying(tx, nftType)
      case _ => r == Err(NFTCellsCountError)
  {
    if |nftType.args| != NftCell.NFT_TYPE_ARGS_LEN then Err(TypeArgsInvalid)
    else
      var action :- ParseNftAction(tx, nftType);
      match action
      case Create => CreationOutcome(cfg, tx, blake2b, nftType)
      case Update => HandleUpdate(tx, nftType)
      case Destroy => HandleDestroying(tx, nftType)
  }
}

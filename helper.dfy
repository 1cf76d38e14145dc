/** The cell scans of script-utils helper.rs: counting, first-position and data lookups
    over one cell group, the payment-cell lookup, the trailing-id reader and the
    anyone-can-pay witness check. Every `QueryIter` over a source becomes a recursion over
    that source's sequence of cells. */
module Helper {
  import opened Host
  import opened Errors
  import opened HelperBytes
  import ClassCell
  import IssuerCell

  /** The size of the id at the end of a type script's args. */
  const ID_LEN: nat := 4
  /** The hash type of the class type script and of the payment lock: `type`. */
  const TYPE: u8 := 1

  /** The deployment constants the validators compare against. */
  datatype Config = Config(
    classTypeCodeHash: Bytes,
    paymentTypeCodeHash: Bytes,
    paymentTypeArgs: Bytes)

  /** The values compiled into the deployed scripts. */
  const DEPLOYED: Config := Config(
    [78, 8, 42, 115, 174, 100, 11, 46, 187, 192, 210, 204, 177, 131, 115, 254,
     240, 240, 143, 58, 171, 103, 241, 20, 16, 190, 248, 188, 64, 150, 75, 124],
    [155, 215, 224, 111, 62, 207, 75, 224, 242, 252, 210, 24, 139, 35, 241, 185,
     252, 200, 142, 93, 75, 101, 168, 99, 123, 23, 114, 59, 189, 163, 204, 232],
    [39, 148, 43, 226, 141, 38, 48, 178, 237, 234, 223, 164, 245, 142, 220, 147,
     231, 104, 127, 126])

  datatype Action = Create | Update | Destroy

  /** `i` is the first index of `s` whose element satisfies `p`. */
  ghost predicate FirstWhere<T>(s: seq<T>, p: T -> bool, i: int) {
    0 <= i < |s| && p(s[i]) && forall k :: 0 <= k < i ==> !p(s[k])
  }

  /** Iterator::position. */
  function Position<T>(s: seq<T>, p: T -> bool): (r: Option<nat>)
    ensures r.None? <==> forall i :: 0 <= i < |s| ==> !p(s[i])
    ensures r.Some? ==> FirstWhere(s, p, r.value)
  {
    if |s| == 0 then None
    else if p(s[0]) then Some(0)
    else
      match Position(s[1..], p)
      case None => None
      case Some(i) =>
        assert forall k :: 1 <= k < i + 1 ==> s[k] == s[1..][k - 1];
        Some(i + 1)
  }

  /** Iterator::filter(..).count(). */
  function Count<T>(s: seq<T>, p: T -> bool): (n: nat)
    ensures n <= |s|
    ensures n == 0 <==> forall i :: 0 <= i < |s| ==> !p(s[i])
  {
    if |s| == 0 then 0
    else
      var rest := Count(s[1..], p);
      assert forall i :: 1 <= i < |s| ==> s[i] == s[1..][i - 1];
      (if p(s[0]) then 1 else 0) + rest
  }

  /** Counting a concatenation adds the counts of its parts. */
  lemma {:induction false} CountAppend<T>(a: seq<T>, b: seq<T>, p: T -> bool)
    ensures Count(a + b, p) == Count(a, p) + Count(b, p)
  {
    if |a| > 0 {
      assert (a + b)[0] == a[0];
      assert (a + b)[1..] == a[1..] + b;
      CountAppend(a[1..], b, p);
    } else {
      assert a + b == b;
    }
  }

  /** Two distinct matching elements count at least twice, so a count of one means the
      matching element is unique. */
  lemma {:induction false} CountAtLeastTwo<T>(s: seq<T>, p: T -> bool, i: int, j: int)
    requires 0 <= i < j < |s| && p(s[i]) && p(s[j])
    ensures Count(s, p) >= 2
  {
    assert p(s[1..][j - 1]);
    if i > 0 {
      assert p(s[1..][i - 1]);
      CountAtLeastTwo(s[1..], p, i - 1, j - 1);
    }
  }

  /** parse_type_opt: a cell with no type script never satisfies a type predicate. */
  function ParseTypeOpt(typeOpt: Option<Script>, matches: Script -> bool): (r: bool)
    ensures r ==> typeOpt.Some?
  {
    match typeOpt
    case Some(t) => matches(t)
    case None => false
  }

  /** The cells whose type script satisfies `matches`. */
  predicate TypeMatches(matches: Script -> bool, c: Cell) {
    ParseTypeOpt(c.typeScript, matches)
  }

  /** The cells whose type script's hash satisfies `matches`. */
  predicate TypeHashMatches(typeHash: Script -> Digest, matches: Bytes -> bool, c: Cell) {
    c.typeScript.Some? && matches(typeHash(c.typeScript.value))
  }

  /** `i` is the first cell whose type script satisfies `matches`. */
  ghost predicate FirstMatch(cells: seq<Cell>, matches: Script -> bool, i: int) {
    0 <= i < |cells| && TypeMatches(matches, cells[i]) &&
    forall k :: 0 <= k < i ==> !TypeMatches(matches, cells[k])
  }

  /** `i` is the first cell whose type script's hash satisfies `matches`. */
  ghost predicate FirstHashMatch(cells: seq<Cell>, typeHash: Script -> Digest, matches: Bytes -> bool,
                                 i: int) {
    0 <= i < |cells| && TypeHashMatches(typeHash, matches, cells[i]) &&
    forall k :: 0 <= k < i ==> !TypeHashMatches(typeHash, matches, cells[k])
  }

  /** `i` is the first cell whose type script is exactly `script`. */
  ghost predicate FirstOfType(cells: seq<Cell>, script: Script, i: int) {
    0 <= i < |cells| && cells[i].typeScript == Some(script) &&
    forall k :: 0 <= k < i ==> cells[k].typeScript != Some(script)
  }

  /** `i` is the first cell locked by `lock`. */
  ghost predicate FirstWithLock(cells: seq<Cell>, lock: Script, i: int) {
    0 <= i < |cells| && cells[i].lock == lock && forall k :: 0 <= k < i ==> cells[k].lock != lock
  }

  /** count_cells_by_type. */
  function CountCellsByType(cells: seq<Cell>, matches: Script -> bool): (n: nat)
    ensures n <= |cells|
    ensures n == 0 <==> forall i :: 0 <= i < |cells| ==> !TypeMatches(matches, cells[i])
  {
    Count(cells, (c: Cell) => TypeMatches(matches, c))
  }

  /** A cell with no type script never adds to a count: removing it changes nothing. */
  lemma UntypedCellNotCounted(cells: seq<Cell>, matches: Script -> bool, i: nat)
    requires i < |cells| && cells[i].typeScript.None?
    ensures CountCellsByType(cells[..i] + cells[i + 1..], matches) == CountCellsByType(cells, matches)
  {
    var p := (c: Cell) => TypeMatches(matches, c);
    assert cells == cells[..i] + ([cells[i]] + cells[i + 1..]);
    CountAppend(cells[..i], [cells[i]] + cells[i + 1..], p);
    CountAppend([cells[i]], cells[i + 1..], p);
    CountAppend(cells[..i], cells[i + 1..], p);
  }

  /** Two distinct cells of the type count at least twice. */
  lemma CountCellsByTypeAtLeastTwo(cells: seq<Cell>, matches: Script -> bool, i: int, j: int)
    requires 0 <= i < |cells| && 0 <= j < |cells| && i != j
    requires TypeMatches(matches, cells[i]) && TypeMatches(matches, cells[j])
    ensures CountCellsByType(cells, matches) >= 2
  {
    var p := (c: Cell) => TypeMatches(matches, c);
    if i < j {
      CountAtLeastTwo(cells, p, i, j);
    } else {
      CountAtLeastTwo(cells, p, j, i);
    }
  }

  /** count_cells_by_type_hash: `typeHash` is the host's hash of a type script. */
  function CountCellsByTypeHash(cells: seq<Cell>, typeHash: Script -> Digest,
                                matches: Bytes -> bool): (n: nat)
    ensures n <= |cells|
    ensures n == 0 <==>
      forall i :: 0 <= i < |cells| ==> !TypeHashMatches(typeHash, matches, cells[i])
  {
    Count(cells, (c: Cell) => TypeHashMatches(typeHash, matches, c))
  }

  /** load_output_index_by_type: the first output whose type script is exactly `typeScript`. */
  function LoadOutputIndexByType(outputs: seq<Cell>, typeScript: Script): (r: Option<nat>)
    ensures r.None? <==> forall i :: 0 <= i < |outputs| ==> outputs[i].typeScript != Some(typeScript)
    ensures r.Some? ==>
      && r.value < |outputs| && outputs[r.value].typeScript == Some(typeScript)
      && forall k :: 0 <= k < r.value ==> outputs[k].typeScript != Some(typeScript)
  {
    Position(outputs, (c: Cell) => c.typeScript == Some(typeScript))
  }

  /** What `load_cell_data(..).map_or_else(|_| Vec::new(), ..)` yields. */
  function DataOrEmpty(c: Cell): (d: Bytes)
    ensures c.data.None? ==> d == []
    ensures c.data.Some? ==> d == c.data.value
  {
    if c.data.Some? then c.data.value else []
  }

  /** load_cell_data_by_type: the data of the first cell whose type satisfies `matches`,
      empty if that cell's data fails to load. */
  function LoadCellDataByType(cells: seq<Cell>, matches: Script -> bool): (r: Option<Bytes>)
    ensures r.None? <==> forall i :: 0 <= i < |cells| ==> !TypeMatches(matches, cells[i])
    ensures forall i :: FirstMatch(cells, matches, i) ==> r == Some(DataOrEmpty(cells[i]))
  {
    match Position(cells, (c: Cell) => TypeMatches(matches, c))
    case None => None
    case Some(i) =>
      assert FirstMatch(cells, matches, i);
      assert forall j :: FirstMatch(cells, matches, j) ==> j == i;
      Some(DataOrEmpty(cells[i]))
  }

  /** load_cell_data_by_type_hash. */
  function LoadCellDataByTypeHash(cells: seq<Cell>, typeHash: Script -> Digest,
                                  matches: Bytes -> bool): (r: Option<Bytes>)
    ensures r.None? <==>
      forall i :: 0 <= i < |cells| ==> !TypeHashMatches(typeHash, matches, cells[i])
    ensures forall i :: FirstHashMatch(cells, typeHash, matches, i) ==>
      r == Some(DataOrEmpty(cells[i]))
  {
    match Position(cells, (c: Cell) => TypeHashMatches(typeHash, matches, c))
    case None => None
    case Some(i) =>
      assert FirstHashMatch(cells, typeHash, matches, i);
      assert forall j :: FirstHashMatch(cells, typeHash, matches, j) ==> j == i;
      Some(DataOrEmpty(cells[i]))
  }

  /** The payment lock: the deployed payment code hash and args, hash type `type`. */
  function PaymentLockScript(cfg: Config): (s: Script)
    ensures s.codeHash == cfg.paymentTypeCodeHash && s.hashType == TYPE && s.args == cfg.paymentTypeArgs
  {
    Script(cfg.paymentTypeCodeHash, TYPE, cfg.paymentTypeArgs)
  }

  /** load_payment_cell_capacity: the capacity of the first output locked by the payment
      lock. Loading a capacity does not fail in this model. */
  function LoadPaymentCellCapacity(cfg: Config, outputs: seq<Cell>): (r: Outcome<u64>)
    ensures r == Err(InvalidPaymentLockScript) <==>
      forall i :: 0 <= i < |outputs| ==> outputs[i].lock != PaymentLockScript(cfg)
    ensures r.Ok? || r == Err(InvalidPaymentLockScript)
    ensures forall i :: FirstWithLock(outputs, PaymentLockScript(cfg), i) ==>
      r == Ok(outputs[i].capacity)
  {
    var lock := PaymentLockScript(cfg);
    match Position(outputs, (c: Cell) => c.lock == lock)
    case None => Err(InvalidPaymentLockScript)
    case Some(i) =>
      assert FirstWithLock(outputs, lock, i);
      assert forall other :: FirstWithLock(outputs, lock, other) ==> other == i;
      Ok(outputs[i].capacity)
  }

  /** load_class_type: the class type script named by the first 24 bytes of an NFT's args. */
  function LoadClassType(cfg: Config, nftArgs: Bytes): (s: Script)
    requires |nftArgs| >= ClassCell.CLASS_TYPE_ARGS_LEN
    ensures s.codeHash == cfg.classTypeCodeHash && s.hashType == TYPE
    ensures |s.args| == ClassCell.CLASS_TYPE_ARGS_LEN
  {
    Script(cfg.classTypeCodeHash, TYPE, nftArgs[0..ClassCell.CLASS_TYPE_ARGS_LEN])
  }

  /** Two NFT args name the same class type exactly when their first 24 bytes agree. */
  lemma LoadClassTypeByPrefix(cfg: Config, a: Bytes, b: Bytes)
    requires |a| >= ClassCell.CLASS_TYPE_ARGS_LEN && |b| >= ClassCell.CLASS_TYPE_ARGS_LEN
    ensures LoadClassType(cfg, a) == LoadClassType(cfg, b) <==>
      a[..ClassCell.CLASS_TYPE_ARGS_LEN] == b[..ClassCell.CLASS_TYPE_ARGS_LEN]
  {
  }

  /** parse_type_args_id: the big-endian u32 after `start` when exactly four bytes remain;
      slicing from past the end of the args panics. */
  function ParseTypeArgsId(typeScript: Script, start: nat): (r: Outcome<Option<u32>>)
    ensures r.Abort? <==> start > |typeScript.args|
    ensures !r.Err?
    ensures r.Ok? ==> (r.value.Some? <==> |typeScript.args| == start + ID_LEN)
    ensures r.Ok? && r.value.Some? ==> BeBytes(r.value.value, ID_LEN) == typeScript.args[start..]
  {
    var idSlice :- Slice(typeScript.args, start, |typeScript.args|);
    if |idSlice| != ID_LEN then Ok(None)
    else Ok(Some(U32FromSlice(idSlice).value))
  }

  /** The id an output type script holds after `start`: present when exactly four bytes
      remain, and panicking when `start` is past the end of its args. */
  ghost predicate IdSource(c: Cell, start: nat, matches: Script -> bool, id: u32) {
    && TypeMatches(matches, c)
    && |c.typeScript.value.args| == start + ID_LEN
    && BeBytes(id, ID_LEN) == c.typeScript.value.args[start..]
  }

  /** The filter and the filter_map of load_output_type_args_ids on one output: its id as a
      zero- or one-element sequence. */
  function OutputTypeArgsId(c: Cell, start: nat, matches: Script -> bool): (r: Outcome<seq<u32>>)
    ensures !r.Err?
    ensures r.Abort? <==> TypeMatches(matches, c) && start > |c.typeScript.value.args|
    ensures r.Ok? ==> |r.value| <= 1 && (|r.value| == 1 ==> IdSource(c, start, matches, r.value[0]))
    ensures r.Ok? && |r.value| == 1 ==> TypeMatches(matches, c)
    ensures forall id: u32 :: IdSource(c, start, matches, id) ==> r == Ok([id])
  {
    if !ParseTypeOpt(c.typeScript, matches) then Ok([])
    else
      var id :- ParseTypeArgsId(c.typeScript.value, start);
      if id.Some? then Ok([id.value]) else Ok([])
  }

  /** load_output_type_args_ids: in output order, the ids of the outputs whose type satisfies
      `matches` and whose args end in exactly four bytes after `start`. */
  function LoadOutputTypeArgsIds(outputs: seq<Cell>, start: nat, matches: Script -> bool)
    : (r: Outcome<seq<u32>>)
    ensures !r.Err?
  {
    if |outputs| == 0 then Ok([])
    else
      var head :- OutputTypeArgsId(outputs[0], start, matches);
      var rest :- LoadOutputTypeArgsIds(outputs[1..], start, matches);
      Ok(head + rest)
  }

  /** The collection panics exactly when some matching output's args are shorter than `start`. */
  lemma {:induction false} LoadOutputTypeArgsIdsAborts(outputs: seq<Cell>, start: nat,
                                                       matches: Script -> bool)
    ensures LoadOutputTypeArgsIds(outputs, start, matches).Abort? <==>
      exists i :: 0 <= i < |outputs| && TypeMatches(matches, outputs[i]) &&
                  start > |outputs[i].typeScript.value.args|
  {
    if |outputs| > 0 {
      LoadOutputTypeArgsIdsStep(outputs, start, matches);
      LoadOutputTypeArgsIdsAborts(outputs[1..], start, matches);
      assert forall i :: 1 <= i < |outputs| ==> outputs[i] == outputs[1..][i - 1];
    }
  }

  /** No more ids are collected than there are matching outputs. */
  lemma {:induction false} LoadOutputTypeArgsIdsAtMostMatches(outputs: seq<Cell>, start: nat,
                                                              matches: Script -> bool)
    requires LoadOutputTypeArgsIds(outputs, start, matches).Ok?
    ensures |LoadOutputTypeArgsIds(outputs, start, matches).value| <= CountCellsByType(outputs, matches)
  {
    if |outputs| > 0 {
      LoadOutputTypeArgsIdsAtMostMatches(outputs[1..], start, matches);
      assert CountCellsByType(outputs, matches) ==
        (if TypeMatches(matches, outputs[0]) then 1 else 0) + CountCellsByType(outputs[1..], matches);
    }
  }

  /** One step of the collection: the first output's ids, then the rest's; a panic in
      either is a panic of the whole. */
  lemma LoadOutputTypeArgsIdsStep(outputs: seq<Cell>, start: nat, matches: Script -> bool)
    requires |outputs| > 0
    ensures var head := OutputTypeArgsId(outputs[0], start, matches);
      var rest := LoadOutputTypeArgsIds(outputs[1..], start, matches);
      LoadOutputTypeArgsIds(outputs, start, matches) ==
        if head.Ok? && rest.Ok? then Ok(head.value + rest.value) else Abort
  {
  }

  /** Every collected id is read from the tail of some matching output's args. */
  lemma {:induction false} LoadOutputTypeArgsIdsSources(outputs: seq<Cell>, start: nat,
                                                        matches: Script -> bool, k: nat)
    requires LoadOutputTypeArgsIds(outputs, start, matches).Ok?
    requires k < |LoadOutputTypeArgsIds(outputs, start, matches).value|
    ensures exists i ::
      0 <= i < |outputs| && IdSource(outputs[i], start, matches, LoadOutputTypeArgsIds(outputs, start, matches).value[k])
  {
    var ids := LoadOutputTypeArgsIds(outputs, start, matches).value;
    assert |outputs| > 0;
    LoadOutputTypeArgsIdsStep(outputs, start, matches);
    var head := OutputTypeArgsId(outputs[0], start, matches).value;
    var rest := LoadOutputTypeArgsIds(outputs[1..], start, matches).value;
    if k < |head| {
      assert ids[k] == head[k];
      assert IdSource(outputs[0], start, matches, ids[k]);
    } else {
      assert ids[k] == rest[k - |head|];
      LoadOutputTypeArgsIdsSources(outputs[1..], start, matches, k - |head|);
      var i :| 0 <= i < |outputs[1..]| && IdSource(outputs[1..][i], start, matches, rest[k - |head|]);
      assert outputs[1..][i] == outputs[i + 1];
      assert 0 <= i + 1 < |outputs| && IdSource(outputs[i + 1], start, matches, ids[k]);
    }
  }

  /** The big-endian id held in the exactly four bytes of `args` after `start`. */
  function ArgsId(args: Bytes, start: nat): (id: u32)
    requires |args| == start + ID_LEN
    ensures BeBytes(id, ID_LEN) == args[start..]
  {
    BeBytesOfValue(args[start..]);
    BeValue(args[start..])
  }

  /** What the `filter_map` of load_output_type_args_ids should keep, stated directly on the
      outputs: for each matching output whose args end exactly four bytes after `start`, in
      output order, the id those four bytes hold. */
  ghost function MatchingIds(outputs: seq<Cell>, start: nat, matches: Script -> bool): seq<u32> {
    if |outputs| == 0 then []
    else
      var c := outputs[0];
      (if TypeMatches(matches, c) && |c.typeScript.value.args| == start + ID_LEN
       then [ArgsId(c.typeScript.value.args, start)] else [])
      + MatchingIds(outputs[1..], start, matches)
  }

  /** A collection that does not panic is exactly the ids of the matching outputs with
      four bytes after `start`, in output order: none is dropped, none is added. */
  lemma {:induction false} LoadOutputTypeArgsIdsExact(outputs: seq<Cell>, start: nat,
                                                      matches: Script -> bool)
    requires LoadOutputTypeArgsIds(outputs, start, matches).Ok?
    ensures LoadOutputTypeArgsIds(outputs, start, matches).value == MatchingIds(outputs, start, matches)
  {
    if |outputs| > 0 {
      LoadOutputTypeArgsIdsStep(outputs, start, matches);
      LoadOutputTypeArgsIdsExact(outputs[1..], start, matches);
      var c := outputs[0];
      var head := OutputTypeArgsId(c, start, matches);
      if TypeMatches(matches, c) && |c.typeScript.value.args| == start + ID_LEN {
        var id := ArgsId(c.typeScript.value.args, start);
        assert IdSource(c, start, matches, id);
        assert head == Ok([id]);
      } else {
        assert head.value == [];
      }
    }
  }

  /** Every matching output with an id contributes that id to the reference collection. */
  lemma {:induction false} MatchingIdsKeep(outputs: seq<Cell>, start: nat, matches: Script -> bool,
                                           i: nat, id: u32)
    requires i < |outputs| && IdSource(outputs[i], start, matches, id)
    ensures id in MatchingIds(outputs, start, matches)
  {
    var c := outputs[0];
    var kept := if TypeMatches(matches, c) && |c.typeScript.value.args| == start + ID_LEN
                then [ArgsId(c.typeScript.value.args, start)] else [];
    assert MatchingIds(outputs, start, matches) == kept + MatchingIds(outputs[1..], start, matches);
    if i == 0 {
      BeBytesOfValue(c.typeScript.value.args[start..]);
      assert kept == [id];
    } else {
      assert outputs[1..][i - 1] == outputs[i];
      MatchingIdsKeep(outputs[1..], start, matches, i - 1, id);
    }
  }

  /** The keep direction of the collection: a non-panicking collection holds the id of every
      matching output with four bytes after `start`. */
  lemma LoadOutputTypeArgsIdsKeeps(outputs: seq<Cell>, start: nat, matches: Script -> bool,
                                   i: nat, id: u32)
    requires LoadOutputTypeArgsIds(outputs, start, matches).Ok?
    requires i < |outputs| && IdSource(outputs[i], start, matches, id)
    ensures id in LoadOutputTypeArgsIds(outputs, start, matches).value
  {
    LoadOutputTypeArgsIdsExact(outputs, start, matches);
    MatchingIdsKeep(outputs, start, matches, i, id);
  }

  /** Collecting over a concatenation collects over each part in turn: output order is kept. */
  lemma {:induction false} LoadOutputTypeArgsIdsAppend(a: seq<Cell>, b: seq<Cell>, start: nat,
                                                       matches: Script -> bool)
    ensures var ra, rb := LoadOutputTypeArgsIds(a, start, matches), LoadOutputTypeArgsIds(b, start, matches);
      LoadOutputTypeArgsIds(a + b, start, matches) ==
        if ra.Ok? && rb.Ok? then Ok(ra.value + rb.value) else Abort
  {
    if |a| == 0 {
      assert a + b == b;
      var rb := LoadOutputTypeArgsIds(b, start, matches);
      if rb.Ok? {
        assert [] + rb.value == rb.value;
      }
    } else {
      var tail := a[1..] + b;
      assert (a + b)[0] == a[0];
      assert (a + b)[1..] == tail;
      LoadOutputTypeArgsIdsStep(a + b, start, matches);
      LoadOutputTypeArgsIdsStep(a, start, matches);
      LoadOutputTypeArgsIdsAppend(a[1..], b, start, matches);
      ConcatOutcomes(OutputTypeArgsId(a[0], start, matches), LoadOutputTypeArgsIds(a[1..], start, matches),
                     LoadOutputTypeArgsIds(b, start, matches), LoadOutputTypeArgsIds(tail, start, matches),
                     LoadOutputTypeArgsIds(a, start, matches), LoadOutputTypeArgsIds(a + b, start, matches));
    }
  }

  /** The outcome algebra behind LoadOutputTypeArgsIdsAppend: joining `head` to `rest`, then
      the result to `last`, is joining `head` to `rest` joined to `last`. */
  lemma ConcatOutcomes(head: Outcome<seq<u32>>, rest: Outcome<seq<u32>>, last: Outcome<seq<u32>>,
                       restLast: Outcome<seq<u32>>, headRest: Outcome<seq<u32>>, all: Outcome<seq<u32>>)
    requires restLast == if rest.Ok? && last.Ok? then Ok(rest.value + last.value) else Abort
    requires headRest == if head.Ok? && rest.Ok? then Ok(head.value + rest.value) else Abort
    requires all == if head.Ok? && restLast.Ok? then Ok(head.value + restLast.value) else Abort
    ensures all == if headRest.Ok? && last.Ok? then Ok(headRest.value + last.value) else Abort
  {
    if head.Ok? && rest.Ok? && last.Ok? {
      assert head.value + (rest.value + last.value) == (head.value + rest.value) + last.value;
    }
  }

  /** Whether the witness of input `index` counts as having no lock: it fails to load, or
      its `lock` field is absent. */
  predicate WitnessLockIsNone(witnesses: seq<Option<WitnessArgs>>, index: nat) {
    index >= |witnesses| || witnesses[index].None? || witnesses[index].value.lock.None?
  }

  /** check_group_input_witness_is_none_with_type: finds the first input of this type, then
      the first input sharing its lock, and reports whether that input's witness has no
      lock. */
  function CheckGroupInputWitnessIsNoneWithType(tx: Transaction, typeScript: Script): (r: Outcome<bool>)
    ensures r == Err(Encoding) <==>
      forall i :: 0 <= i < |tx.inputs| ==> tx.inputs[i].typeScript != Some(typeScript)
    ensures r.Ok? || r == Err(Encoding)
    ensures forall i :: FirstOfType(tx.inputs, typeScript, i) ==>
      exists j :: FirstWithLock(tx.inputs, tx.inputs[i].lock, j) && j <= i &&
        r == Ok(WitnessLockIsNone(tx.witnesses, j))
  {
    match Position(tx.inputs, (c: Cell) => c.typeScript == Some(typeScript))
    case None => Err(Encoding)
    case Some(i) =>
      assert FirstOfType(tx.inputs, typeScript, i);
      assert forall other :: FirstOfType(tx.inputs, typeScript, other) ==> other == i;
      var lock := tx.inputs[i].lock;
      match Position(tx.inputs, (c: Cell) => c.lock == lock)
      case None => Err(Encoding)
      case Some(j) =>
        assert FirstWithLock(tx.inputs, lock, j);
        assert forall other :: FirstWithLock(tx.inputs, lock, other) ==> other == j;
        Ok(WitnessLockIsNone(tx.witnesses, j))
  }

  /** The witness looked at belongs to exactly one input: the first one sharing the lock. */
  lemma WitnessIndexUnique(cells: seq<Cell>, lock: Script, j: int, j': int)
    requires FirstWithLock(cells, lock, j) && FirstWithLock(cells, lock, j')
    ensures j == j'
  {
  }

  /** cell_deps_have_same_issuer_id: the first cell dep's type hash starts with the issuer id. */
  function CellDepHasSameIssuerId(dep: Cell, typeHash: Script -> Digest, issuerId: Bytes): (r: bool)
    ensures r ==> dep.typeScript.Some? && |issuerId| == IssuerCell.ISSUER_TYPE_ARGS_LEN
  {
    dep.typeScript.Some? &&
    typeHash(dep.typeScript.value)[0..IssuerCell.ISSUER_TYPE_ARGS_LEN] == issuerId
  }

  /** The first cell dep and the first input exist and carry the same lock. */
  predicate SharesFirstLock(tx: Transaction) {
    |tx.cellDeps| > 0 && |tx.inputs| > 0 && tx.cellDeps[0].lock == tx.inputs[0].lock
  }

  /** cell_deps_and_inputs_have_issuer_or_class_lock: the first cell dep shares the first
      input's lock and is either the issuer named by the NFT args or their class. A missing
      first cell dep or first input is the host's IndexOutOfBound. Once the locks agree, the
      args are sliced to 20 bytes for the issuer id and, when that does not match, to 24 bytes
      for the class type: args too short for the slice taken panic. */
  function CellDepsAndInputsHaveIssuerOrClassLock(cfg: Config, tx: Transaction,
                                                  typeHash: Script -> Digest, nftArgs: Bytes)
    : (r: Outcome<bool>)
    ensures r.Err? <==> |tx.cellDeps| == 0 || |tx.inputs| == 0
    ensures r.Err? ==> r.error == IndexOutOfBound
    ensures r.Abort? <==>
      && SharesFirstLock(tx)
      && (|| |nftArgs| < IssuerCell.ISSUER_TYPE_ARGS_LEN
          || (&& !CellDepHasSameIssuerId(tx.cellDeps[0], typeHash,
                                         nftArgs[0..IssuerCell.ISSUER_TYPE_ARGS_LEN])
              && |nftArgs| < ClassCell.CLASS_TYPE_ARGS_LEN))
    ensures r == Ok(true) <==>
      && SharesFirstLock(tx)
      && |nftArgs| >= IssuerCell.ISSUER_TYPE_ARGS_LEN
      && (|| CellDepHasSameIssuerId(tx.cellDeps[0], typeHash,
                                    nftArgs[0..IssuerCell.ISSUER_TYPE_ARGS_LEN])
          || (&& |nftArgs| >= ClassCell.CLASS_TYPE_ARGS_LEN
              && tx.cellDeps[0].typeScript == Some(LoadClassType(cfg, nftArgs))))
    ensures |tx.cellDeps| > 0 && |tx.inputs| > 0 && !SharesFirstLock(tx) ==> r == Ok(false)
  {
    if |tx.cellDeps| == 0 || |tx.inputs| == 0 then Err(IndexOutOfBound)
    else if tx.cellDeps[0].lock != tx.inputs[0].lock then Ok(false)
    else
      var issuerId :- Slice(nftArgs, 0, IssuerCell.ISSUER_TYPE_ARGS_LEN);
      if CellDepHasSameIssuerId(tx.cellDeps[0], typeHash, issuerId) then Ok(true)
      else if |nftArgs| < ClassCell.CLASS_TYPE_ARGS_LEN then Abort
      else Ok(tx.cellDeps[0].typeScript == Some(LoadClassType(cfg, nftArgs)))
  }

  /** `load_cell_data(0, GroupInput | GroupOutput)`: the data of the first cell of the group
      running `script`; None when the group is empty or that load fails. */
  function LoadGroupCellData(cells: seq<Cell>, script: Script): (r: Option<Bytes>)
    ensures (forall i :: 0 <= i < |cells| ==> cells[i].typeScript != Some(script)) ==> r.None?
    ensures forall i :: FirstOfType(cells, script, i) ==> r == cells[i].data
  {
    match Position(cells, (c: Cell) => c.typeScript == Some(script))
    case None => None
    case Some(i) =>
      assert FirstOfType(cells, script, i);
      assert forall other :: FirstOfType(cells, script, other) ==> other == i;
      cells[i].data
  }
}

/** nft-type entry/validator.rs: an NFT update may not touch the record at all. */
module NftValidator {
  import opened Errors
  import opened NftCell

  /** validate_immutable_nft_fields: data is compared first, then version. */
  function ValidateImmutableNftFields(input: Nft, output: Nft): (r: Outcome<()>)
    ensures r.Ok? <==> input.data == output.data && input.version == output.version
    ensures input.data != output.data ==> r == Err(NFTDataNotSame)
    ensures input.data == output.data && input.version != output.version ==>
      r == Err(NFTVersionNotSame)
    ensures !r.Abort?
  {
    if input.data != output.data then Err(NFTDataNotSame)
    else if input.version != output.version then Err(NFTVersionNotSame)
    else Ok(())
  }

  /** The validator accepts exactly the unchanged records. */
  lemma AcceptsExactlyUnchanged(input: Nft, output: Nft)
    ensures ValidateImmutableNftFields(input, output).Ok? <==> input == output
  {
  }
}

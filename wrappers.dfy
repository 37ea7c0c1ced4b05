/** Missing values and failures. `None` stands for a pandas NaN cell. */
module Wrappers {

  datatype Option<+T> = None | Some(value: T)

  /** The exceptions the pipeline can raise, one constructor per cause. */
  datatype Error =
    | EmptyMetadataFile     // the metadata file has no header line to read
    | NothingToConcatenate  // pd.concat of zero groups (empty long-form table)
    | NoMaximumRank         // int(max()) of a rank column holding no value

  datatype Result<+T> = Ok(value: T) | Fail(error: Error)
}

/**
 * What the two partitioners share with their base class Fold: the configuration
 * (number of folds k, number of samples n, seed), the fold-count accessor, the
 * range check on a fold number, and the shape of a fold (train and test indices).
 */
module FoldBase {

  /** std::out_of_range raised by getFold; the message carries nFold and k. */
  datatype Error = OutOfRange(nFold: int, k: int)

  datatype Result<T> = Ok(value: T) | Err(error: Error)

  /** The pair getFold returns: train indices first, test indices second. */
  datatype Split = Split(train: seq<int>, test: seq<int>)

  /**
   * The fields of Fold. The seed only selects the random engine's stream; the model
   * receives that stream's output as explicit inputs, so the seed is kept as data.
   */
  datatype Fold = Fold(k: int, n: int, seed: int)
  {
    /** getNumberOfFolds: the configured number of folds. */
    function NumberOfFolds(): (r: int)
      ensures r == k
    {
      k
    }

    /** The guard both getFold implementations apply before touching any data. */
    function CheckFold(nFold: int): (r: Result<()>)
      ensures r.Ok? <==> 0 <= nFold < k
      ensures r.Err? ==> r.error == OutOfRange(nFold, k)
    {
      if nFold >= k || nFold < 0 then Err(OutOfRange(nFold, k)) else Ok(())
    }
  }
}

/** Result: the success-or-failure value the CSV reader and every stage of
    the pipeline return in place of raising an exception. */
module Results {

  datatype Result<+T, +E> = Ok(value: T) | Err(error: E)
}
